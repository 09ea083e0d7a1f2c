/** Proleptic Gregorian dates as Python's `datetime.date` computes with them: the
    ordinal of a date (day 1 is 0001-01-01), the weekday (Monday is 0), stepping by
    days (`timedelta`) and the ISO calendar (`isocalendar`). The calendar module of
    the shell only ever uses these four operations. */
module CivilDate {
  datatype Date = Date(year: int, month: int, day: int)

  predicate IsLeap(y: int)
  {
    y % 4 == 0 && (y % 100 != 0 || y % 400 == 0)
  }

  function DaysInMonth(y: int, m: int): (r: int)
    requires 1 <= m <= 12
    ensures 28 <= r <= 31
    ensures r == 29 <==> m == 2 && IsLeap(y)
  {
    if m == 2 then (if IsLeap(y) then 29 else 28)
    else if m == 4 || m == 6 || m == 9 || m == 11 then 30
    else 31
  }

  predicate ValidDate(x: Date)
  {
    1 <= x.month <= 12 && 1 <= x.day <= DaysInMonth(x.year, x.month)
  }

  /** `_days_before_year`. Dafny's division by a positive constant floors, as
      Python's `//` does, so the formula holds for every year. */
  function DaysBeforeYear(y: int): int
  {
    var p := y - 1;
    p * 365 + p / 4 - p / 100 + p / 400
  }

  /** `_days_before_month`. */
  function DaysBeforeMonth(y: int, m: int): int
    requires 1 <= m <= 12
  {
    var base :=
      if m == 1 then 0 else if m == 2 then 31 else if m == 3 then 59
      else if m == 4 then 90 else if m == 5 then 120 else if m == 6 then 151
      else if m == 7 then 181 else if m == 8 then 212 else if m == 9 then 243
      else if m == 10 then 273 else if m == 11 then 304 else 334;
    base + (if m > 2 && IsLeap(y) then 1 else 0)
  }

  /** `date.toordinal`. */
  function Ordinal(x: Date): int
    requires ValidDate(x)
  {
    DaysBeforeYear(x.year) + DaysBeforeMonth(x.year, x.month) + x.day
  }

  /** `date.weekday`: Monday is 0 and Sunday is 6. */
  function Weekday(x: Date): (r: int)
    requires ValidDate(x)
    ensures 0 <= r < 7
  {
    (Ordinal(x) + 6) % 7
  }

  lemma DivSteps(a: int)
    ensures a / 4 - (a - 1) / 4 == (if a % 4 == 0 then 1 else 0)
    ensures a / 100 - (a - 1) / 100 == (if a % 100 == 0 then 1 else 0)
    ensures a / 400 - (a - 1) / 400 == (if a % 400 == 0 then 1 else 0)
  {
  }

  lemma ModShift(a: int, b: int)
    ensures (a % 7 + b) % 7 == (a + b) % 7
  {
  }

  /** A year has 365 days, or 366 when it is a leap year. */
  lemma YearLength(y: int)
    ensures DaysBeforeYear(y + 1) == DaysBeforeYear(y) + (if IsLeap(y) then 366 else 365)
  {
    DivSteps(y);
  }

  lemma MonthLength(y: int, m: int)
    requires 1 <= m < 12
    ensures DaysBeforeMonth(y, m + 1) == DaysBeforeMonth(y, m) + DaysInMonth(y, m)
  {
  }

  /** A date's ordinal lies after every day of the previous years and within its own. */
  lemma OrdinalInYear(x: Date)
    requires ValidDate(x)
    ensures DaysBeforeYear(x.year) < Ordinal(x) <= DaysBeforeYear(x.year + 1)
  {
    YearLength(x.year);
  }

  lemma {:induction false} DaysBeforeYearMonotone(a: int, b: int)
    requires a <= b
    ensures DaysBeforeYear(a) <= DaysBeforeYear(b)
    decreases b - a
  {
    if a < b {
      YearLength(b - 1);
      DaysBeforeYearMonotone(a, b - 1);
    }
  }

  lemma MonthBefore(y: int, m: int, n: int)
    requires 1 <= m < n <= 12
    ensures DaysBeforeMonth(y, m) + DaysInMonth(y, m) <= DaysBeforeMonth(y, n)
  {
  }

  /** Distinct valid dates have distinct ordinals. */
  lemma OrdinalInjective(x: Date, y: Date)
    requires ValidDate(x) && ValidDate(y) && Ordinal(x) == Ordinal(y)
    ensures x == y
  {
    OrdinalInYear(x);
    OrdinalInYear(y);
    if x.year < y.year {
      DaysBeforeYearMonotone(x.year + 1, y.year);
    } else if y.year < x.year {
      DaysBeforeYearMonotone(y.year + 1, x.year);
    } else if x.month < y.month {
      MonthBefore(x.year, x.month, y.month);
    } else if y.month < x.month {
      MonthBefore(x.year, y.month, x.month);
    }
  }

  /** The day after `x`. */
  function NextDay(x: Date): (r: Date)
    requires ValidDate(x)
    ensures ValidDate(r) && Ordinal(r) == Ordinal(x) + 1
  {
    if x.day < DaysInMonth(x.year, x.month) then Date(x.year, x.month, x.day + 1)
    else if x.month < 12 then MonthLength(x.year, x.month); Date(x.year, x.month + 1, 1)
    else YearLength(x.year); Date(x.year + 1, 1, 1)
  }

  /** The day before `x`. */
  function PrevDay(x: Date): (r: Date)
    requires ValidDate(x)
    ensures ValidDate(r) && Ordinal(r) == Ordinal(x) - 1
  {
    if x.day > 1 then Date(x.year, x.month, x.day - 1)
    else if x.month > 1 then MonthLength(x.year, x.month - 1); Date(x.year, x.month - 1, DaysInMonth(x.year, x.month - 1))
    else YearLength(x.year - 1); Date(x.year - 1, 12, 31)
  }

  /** `x + timedelta(days=n)`. */
  function AddDays(x: Date, n: int): (r: Date)
    requires ValidDate(x)
    ensures ValidDate(r) && Ordinal(r) == Ordinal(x) + n
    decreases if n < 0 then -n else n
  {
    if n == 0 then x
    else if n > 0 then NextDay(AddDays(x, n - 1))
    else PrevDay(AddDays(x, n + 1))
  }

  /** Going back the days just added returns the same date, and so does going
      forward the days just taken away. */
  lemma AddDaysInverse(x: Date, n: int)
    requires ValidDate(x)
    ensures AddDays(AddDays(x, n), -n) == x && AddDays(AddDays(x, -n), n) == x
  {
    OrdinalInjective(AddDays(AddDays(x, n), -n), x);
    OrdinalInjective(AddDays(AddDays(x, -n), n), x);
  }

  /** Moving `n` days moves the weekday `n` places round the week. */
  lemma WeekdayShift(x: Date, n: int)
    requires ValidDate(x)
    ensures Weekday(AddDays(x, n)) == (Weekday(x) + n) % 7
  {
    ModShift(Ordinal(x) + 6, n);
  }

  /** A week later or earlier falls on the same weekday. */
  lemma WeekLater(x: Date)
    requires ValidDate(x)
    ensures Weekday(AddDays(x, 7)) == Weekday(x) && Weekday(AddDays(x, -7)) == Weekday(x)
  {
    WeekdayPeriod(Ordinal(x), Ordinal(AddDays(x, 7)));
    WeekdayPeriod(Ordinal(x), Ordinal(AddDays(x, -7)));
  }

  lemma WeekdayPeriod(a: int, b: int)
    requires b == a + 7 || b == a - 7
    ensures (b + 6) % 7 == (a + 6) % 7
  {
  }

  /** The date `n` days after `x` when that stays within `x`'s month or the next. */
  function InMonthOrNext(x: Date, n: nat): Date
    requires ValidDate(x)
  {
    var dim := DaysInMonth(x.year, x.month);
    if x.day + n <= dim then Date(x.year, x.month, x.day + n)
    else if x.month < 12 then Date(x.year, x.month + 1, x.day + n - dim)
    else Date(x.year + 1, 1, x.day + n - dim)
  }

  lemma InMonthOrNextStep(x: Date, n: nat)
    requires ValidDate(x) && n < 28
    ensures ValidDate(InMonthOrNext(x, n)) && NextDay(InMonthOrNext(x, n)) == InMonthOrNext(x, n + 1)
  {
    if x.day + n > DaysInMonth(x.year, x.month) && x.month < 12 {
      assert DaysInMonth(x.year, x.month + 1) >= 28;
    }
  }

  /** Within the first four weeks after `x`, a date stays in `x`'s month exactly
      while the day number does not run past the month's end; past it, the date lies
      in the following month. */
  lemma {:induction false} AddDaysInMonth(x: Date, n: nat)
    requires ValidDate(x) && n <= 28
    ensures AddDays(x, n) == InMonthOrNext(x, n)
  {
    if n > 0 {
      AddDaysInMonth(x, n - 1);
      InMonthOrNextStep(x, n - 1);
    }
  }

  /** `_isoweek1monday`: the Monday that starts ISO week 1 of `y`. */
  function IsoWeek1Monday(y: int): int
  {
    Week1MondayFrom(Ordinal(Date(y, 1, 1)))
  }

  /** The Monday starting ISO week 1 of the year whose 1 January has ordinal `first`:
      the Monday of that week when 1 January falls on Monday to Thursday, else the
      next one. */
  function Week1MondayFrom(first: int): int
  {
    var firstWeekday := (first + 6) % 7;
    var monday := first - firstWeekday;
    if firstWeekday > 3 then monday + 7 else monday
  }

  /** `date.isocalendar` without the weekday: the ISO year and week of `x`. */
  function IsoYearWeek(x: Date): (r: (int, int))
    requires ValidDate(x)
    ensures x.year - 1 <= r.0 <= x.year + 1
  {
    IsoYearWeekAt(x.year, Ordinal(x), IsoWeek1Monday(x.year - 1), IsoWeek1Monday(x.year),
                  IsoWeek1Monday(x.year + 1))
  }

  /** The ISO year and week of the day with ordinal `today` in year `y`, given where
      ISO week 1 starts in the previous (`w0`), this (`w1`) and the next (`w2`) year. */
  function IsoYearWeekAt(y: int, today: int, w0: int, w1: int, w2: int): (int, int)
  {
    var week := (today - w1) / 7;
    if week < 0 then (y - 1, (today - w0) / 7 + 1)
    else if week >= 52 && today >= w2 then (y + 1, 1)
    else (y, week + 1)
  }

  lemma IsoWeekAtRange(y: int, today: int, w0: int, w1: int, w2: int)
    requires w1 - w0 == 364 || w1 - w0 == 371
    requires w2 - w1 == 364 || w2 - w1 == 371
    requires w1 - 3 <= today
    ensures 1 <= IsoYearWeekAt(y, today, w0, w1, w2).1 <= 53
  {
  }

  lemma Week1MondayNear(first: int)
    ensures first - 3 <= Week1MondayFrom(first) <= first + 3
    ensures (Week1MondayFrom(first) + 6) % 7 == 0
  {
  }

  lemma Week1MondayGapFrom(first: int, next: int)
    requires next - first == 365 || next - first == 366
    ensures Week1MondayFrom(next) - Week1MondayFrom(first) == 364 ||
            Week1MondayFrom(next) - Week1MondayFrom(first) == 371
  {
    Week1MondayNear(first);
    Week1MondayNear(next);
  }

  lemma NewYearOrdinal(y: int)
    ensures Ordinal(Date(y, 1, 1)) == DaysBeforeYear(y) + 1
  {
  }

  lemma NewYearNotAfter(x: Date)
    requires ValidDate(x)
    ensures Ordinal(Date(x.year, 1, 1)) <= Ordinal(x)
  {
  }

  /** ISO week 1 of consecutive years starts 52 or 53 weeks apart. */
  lemma Week1MondayGap(y: int)
    ensures IsoWeek1Monday(y + 1) - IsoWeek1Monday(y) == 364 ||
            IsoWeek1Monday(y + 1) - IsoWeek1Monday(y) == 371
  {
    YearLength(y);
    NewYearOrdinal(y);
    NewYearOrdinal(y + 1);
    Week1MondayGapFrom(Ordinal(Date(y, 1, 1)), Ordinal(Date(y + 1, 1, 1)));
  }

  lemma Week1MondayNotFarAfter(x: Date)
    requires ValidDate(x)
    ensures IsoWeek1Monday(x.year) - 3 <= Ordinal(x)
  {
    NewYearNotAfter(x);
    Week1MondayNear(Ordinal(Date(x.year, 1, 1)));
  }

  /** ISO weeks are numbered 1 to 53. */
  lemma IsoWeekRange(x: Date)
    requires ValidDate(x)
    ensures 1 <= IsoYearWeek(x).1 <= 53
  {
    var w0, w1, w2 := IsoWeek1Monday(x.year - 1), IsoWeek1Monday(x.year), IsoWeek1Monday(x.year + 1);
    Week1MondayNotFarAfter(x);
    Week1MondayGap(x.year - 1);
    Week1MondayGap(x.year);
    IsoWeekAtRange(x.year, Ordinal(x), w0, w1, w2);
    assert IsoYearWeek(x) == IsoYearWeekAt(x.year, Ordinal(x), w0, w1, w2);
  }
}
