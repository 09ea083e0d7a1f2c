/** The calendar widget of modules/cal.py: a month view (a grid of the month's days)
    or a week view (one row of seven days), navigation by month or week, and a cache
    of the views already built, keyed by (year, month) or by (ISO year, ISO week) and
    pruned to the keys near the one shown.

    Gtk widgets become values: a view is the list of cells it shows, the stack is the
    `views` map with its visible key and transition; the clock, the locale thread and
    D-Bus are replaced by the dates passed in. */
module Cal {
  import opened Common
  import opened CivilDate

  datatype ViewMode = Month | Week

  /** A cache key: (year, month) in the month view, (ISO year, ISO week) in the week view. */
  type Key = (int, int)

  /** Python's ordering of 2-tuples. */
  predicate KeyLess(a: Key, b: Key)
  {
    a.0 < b.0 || (a.0 == b.0 && a.1 < b.1)
  }

  /** The keys the calendar produces: months 1-12, ISO weeks 1-53. */
  predicate WellFormedKey(mode: ViewMode, k: Key)
  {
    1 <= k.1 <= (if mode == Month then 12 else 53)
  }

  /** `get_key_index`: consecutive months get consecutive indices; weeks are spaced
      as if every year had 53 of them. */
  function KeyIndex(mode: ViewMode, k: Key): int
  {
    if mode == Month then k.0 * 12 + (k.1 - 1) else k.0 * 53 + k.1
  }

  /** The key an index belongs to, the inverse of `KeyIndex` on well-formed keys. */
  function KeyOfIndex(mode: ViewMode, i: int): (k: Key)
    ensures WellFormedKey(mode, k)
  {
    if mode == Month then (i / 12, i % 12 + 1) else ((i - 1) / 53, (i - 1) % 53 + 1)
  }

  lemma KeyOfIndexInverse(mode: ViewMode, k: Key)
    requires WellFormedKey(mode, k)
    ensures KeyOfIndex(mode, KeyIndex(mode, k)) == k
  {
    if mode == Month {
      DivMod12(k.0, k.1 - 1);
    } else {
      DivMod53(k.0, k.1 - 1);
    }
  }

  lemma DivMod12(q: int, r: int)
    requires 0 <= r < 12
    ensures (q * 12 + r) / 12 == q && (q * 12 + r) % 12 == r
  {
  }

  lemma DivMod53(q: int, r: int)
    requires 0 <= r < 53
    ensures (q * 53 + r) / 53 == q && (q * 53 + r) % 53 == r
  {
  }

  /** On well-formed keys the index orders keys as Python orders the tuples, so it is
      injective and the slide direction agrees with the index. */
  lemma IndexOrder(mode: ViewMode, a: Key, b: Key)
    requires WellFormedKey(mode, a) && WellFormedKey(mode, b)
    ensures KeyLess(a, b) <==> KeyIndex(mode, a) < KeyIndex(mode, b)
    ensures KeyIndex(mode, a) == KeyIndex(mode, b) <==> a == b
  {
    if a.0 < b.0 {
      assert KeyIndex(mode, a) < KeyIndex(mode, (a.0 + 1, 1)) <= KeyIndex(mode, b);
    } else if b.0 < a.0 {
      assert KeyIndex(mode, b) < KeyIndex(mode, (b.0 + 1, 1)) <= KeyIndex(mode, a);
    }
  }

  /** The month after (y, m), as `on_next_clicked` computes it. */
  function NextMonth(k: Key): Key
  {
    if k.1 == 12 then (k.0 + 1, 1) else (k.0, k.1 + 1)
  }

  /** The month before (y, m), as `on_prev_clicked` computes it. */
  function PrevMonth(k: Key): Key
  {
    if k.1 == 1 then (k.0 - 1, 12) else (k.0, k.1 - 1)
  }

  /** Next then previous, or previous then next, lands on the same month, and each
      moves the month index by exactly one. */
  lemma MonthNavigation(k: Key)
    requires WellFormedKey(Month, k)
    ensures WellFormedKey(Month, NextMonth(k)) && WellFormedKey(Month, PrevMonth(k))
    ensures PrevMonth(NextMonth(k)) == k && NextMonth(PrevMonth(k)) == k
    ensures KeyIndex(Month, NextMonth(k)) == KeyIndex(Month, k) + 1
    ensures KeyIndex(Month, PrevMonth(k)) == KeyIndex(Month, k) - 1
    ensures KeyLess(k, NextMonth(k)) && KeyLess(PrevMonth(k), k)
  {
  }

  /** A week is seven days; navigation in the week view moves by one week. */
  const DaysPerWeek := 7

  /** Week navigation: forward then back returns to the same date, and the first
      day of the week keeps its weekday. */
  lemma WeekNavigation(x: Date)
    requires ValidDate(x)
    ensures AddDays(AddDays(x, DaysPerWeek), -DaysPerWeek) == x
    ensures AddDays(AddDays(x, -DaysPerWeek), DaysPerWeek) == x
    ensures Weekday(AddDays(x, DaysPerWeek)) == Weekday(x) && Weekday(AddDays(x, -DaysPerWeek)) == Weekday(x)
  {
    AddDaysInverse(x, DaysPerWeek);
    WeekLater(x);
  }

  /** How many days to go back from a day with weekday `weekday` to the first day of
      its week. */
  function WeekStartOffset(weekday: int, firstWeekday: int): int
  {
    (weekday - firstWeekday + 7) % 7
  }

  /** Going back `WeekStartOffset` days goes back at most six days and lands on the
      locale's first weekday. */
  lemma WeekStart(d: Date, firstWeekday: int)
    requires ValidDate(d) && 0 <= firstWeekday < 7
    ensures 0 <= WeekStartOffset(Weekday(d), firstWeekday) <= 6
    ensures Weekday(AddDays(d, -WeekStartOffset(Weekday(d), firstWeekday))) == firstWeekday
  {
    var n := WeekStartOffset(Weekday(d), firstWeekday);
    WeekdayShift(d, -n);
    OffsetBack(Weekday(d), firstWeekday);
  }

  lemma OffsetBack(weekday: int, firstWeekday: int)
    requires 0 <= weekday < 7 && 0 <= firstWeekday < 7
    ensures 0 <= WeekStartOffset(weekday, firstWeekday) <= 6
    ensures (weekday - WeekStartOffset(weekday, firstWeekday)) % 7 == firstWeekday
  {
  }

  /** The first day of the week containing `d`. */
  function WeekStartOf(d: Date, firstWeekday: int): (r: Date)
    requires ValidDate(d)
    ensures ValidDate(r)
  {
    AddDays(d, -WeekStartOffset(Weekday(d), firstWeekday))
  }

  /** The first weekday derived from the locale's `week-1stday` date and its
      `first_weekday` number (1 means that date's own weekday). */
  function LocaleFirstWeekday(origin: Date, firstWeekdayValue: int): (r: int)
    requires ValidDate(origin)
    ensures 0 <= r < 7
  {
    Weekday(AddDays(origin, firstWeekdayValue - 1))
  }

  /** The usual glibc setting, week-1stday 1997-11-30 (a Sunday): first_weekday 2
      starts the week on Monday, 1 on Sunday. */
  lemma LocaleExamples()
    ensures LocaleFirstWeekday(Date(1997, 11, 30), 2) == 0
    ensures LocaleFirstWeekday(Date(1997, 11, 30), 1) == 6
  {
    assert Ordinal(Date(1997, 11, 30)) == 729358;
  }

  /** The weekday of each header column: `(first_weekday + i) % 7`. */
  function WeekdayOffsets(firstWeekday: int): (r: seq<int>)
    ensures |r| == 7
  {
    seq(7, i => (firstWeekday + i) % 7)
  }

  /** The header's weekdays are 0..6 each exactly once, starting at the first weekday. */
  lemma WeekdayOffsetsPermutation(firstWeekday: int)
    requires 0 <= firstWeekday < 7
    ensures WeekdayOffsets(firstWeekday)[0] == firstWeekday
    ensures forall d :: 0 <= d < 7 ==> d in WeekdayOffsets(firstWeekday)
    ensures forall i, j :: 0 <= i < j < 7 ==> WeekdayOffsets(firstWeekday)[i] != WeekdayOffsets(firstWeekday)[j]
  {
    var r := WeekdayOffsets(firstWeekday);
    forall d | 0 <= d < 7
      ensures d in r
    {
      var k := (d - firstWeekday + 7) % 7;
      OneWeekMod(firstWeekday + k);
      OneWeekMod(d - firstWeekday + 7);
      assert r[k] == d;
    }
    forall i, j | 0 <= i < j < 7
      ensures r[i] != r[j]
    {
      OneWeekMod(firstWeekday + i);
      OneWeekMod(firstWeekday + j);
    }
  }

  /** `%` on the values a column's weekday sum can take. */
  lemma OneWeekMod(a: int)
    requires 0 <= a < 14
    ensures a % 7 == if a < 7 then a else a - 7
  {
  }

  /** The first letter of `strftime("%a")`, upper-cased, for Monday to Sunday (index 0
      to 6). It follows the process's `LC_TIME`, which GTK sets from the environment:
      "MTWTFSS" in the C or an English locale, "MDMDFSS" in German, "LMMJVSD" in
      French. */
  type DayLetters = s: seq<char> | |s| == 7 witness "MTWTFSS"

  /** The letters of the C locale. */
  const CLetters: DayLetters := "MTWTFSS"

  /** `strftime("%a")[:1].upper()` of a date on `weekday`. */
  function WeekdayInitial(letters: DayLetters, weekday: int): char
    requires 0 <= weekday < 7
  {
    letters[weekday]
  }

  /** The initials of the days `WeekdayOffsets(first_weekday)` days after `base`;
      the date `k` days after `base` falls on weekday `(Weekday(base) + k) % 7`
      (`WeekdayShift`). */
  function InitialsFrom(letters: DayLetters, base: Date, firstWeekday: int): (r: string)
    requires ValidDate(base)
    ensures |r| == 7
  {
    var offsets := WeekdayOffsets(firstWeekday);
    seq(7, i requires 0 <= i < 7 => WeekdayInitial(letters, (Weekday(base) + offsets[i]) % 7))
  }

  /** Column `i` is labelled with the weekday `first_weekday + i` places after the
      weekday of `base`. */
  lemma InitialsFromShift(letters: DayLetters, base: Date, firstWeekday: int)
    requires ValidDate(base)
    ensures forall i :: 0 <= i < 7 ==>
      InitialsFrom(letters, base, firstWeekday)[i] == WeekdayInitial(letters, (Weekday(base) + firstWeekday + i) % 7)
  {
    forall i | 0 <= i < 7
      ensures InitialsFrom(letters, base, firstWeekday)[i] == WeekdayInitial(letters, (Weekday(base) + firstWeekday + i) % 7)
    {
      ShiftSum(Weekday(base), firstWeekday + i);
    }
  }

  lemma ShiftSum(w: int, k: int)
    ensures (w + k % 7) % 7 == (w + k) % 7
  {
    ModShift(k, w);
  }

  /** 2025-01-01 is a Wednesday, and 2025-01-06 the Monday after it. */
  lemma BaseWeekdays()
    ensures Weekday(Date(2025, 1, 1)) == 2 && Weekday(Date(2025, 1, 6)) == 0
  {
    assert Ordinal(Date(2025, 1, 1)) == 739252;
    assert Ordinal(Date(2025, 1, 6)) == 739257;
  }

  /** `get_weekday_initials` as written: counted from 2025-01-01, a date the code
      takes for a Monday. */
  function InitialsAsWritten(letters: DayLetters, firstWeekday: int): (r: string)
    ensures |r| == 7
  {
    InitialsFrom(letters, Date(2025, 1, 1), firstWeekday)
  }

  /** 2025-01-01 is a Wednesday, so as written every column is labelled two days
      late in every locale: column `i` shows weekday `first_weekday + i + 2`, and a
      week starting on Monday is headed by the letters rotated by two, "WTFSSMT" in
      the C locale. */
  lemma InitialsAsWrittenShifted(letters: DayLetters, firstWeekday: int)
    ensures forall i :: 0 <= i < 7 ==>
      InitialsAsWritten(letters, firstWeekday)[i] == WeekdayInitial(letters, (firstWeekday + i + 2) % 7)
    ensures InitialsAsWritten(letters, 0) == letters[2..] + letters[..2]
    ensures InitialsAsWritten(CLetters, 0) == "WTFSSMT"
  {
    BaseWeekdays();
    InitialsFromShift(letters, Date(2025, 1, 1), firstWeekday);
    InitialsFromShift(letters, Date(2025, 1, 1), 0);
    forall i | 0 <= i < 7
      ensures InitialsAsWritten(letters, 0)[i] == (letters[2..] + letters[..2])[i]
    {
      OneWeekMod(i + 2);
    }
    InitialsFromShift(CLetters, Date(2025, 1, 1), 0);
    forall i | 0 <= i < 7
      ensures InitialsAsWritten(CLetters, 0)[i] == "WTFSSMT"[i]
    {
    }
  }

  /** The header as intended: counted from a Monday (2025-01-06). */
  function Initials(letters: DayLetters, firstWeekday: int): (r: string)
    ensures |r| == 7
  {
    InitialsFrom(letters, Date(2025, 1, 6), firstWeekday)
  }

  /** Column `i` of the header names weekday `(first_weekday + i) % 7`, the weekday
      of the days in that column of the grid, in every locale: the letters
      themselves for a week starting on Monday, and Sunday's letter first for one
      starting on Sunday ("MTWTFSS" and "SMTWTFS" in the C locale). */
  lemma InitialsFollowOffsets(letters: DayLetters, firstWeekday: int)
    ensures forall i :: 0 <= i < 7 ==> Initials(letters, firstWeekday)[i] == WeekdayInitial(letters, WeekdayOffsets(firstWeekday)[i])
    ensures Initials(letters, 0) == letters && Initials(letters, 6) == letters[6..] + letters[..6]
    ensures Initials(CLetters, 0) == "MTWTFSS" && Initials(CLetters, 6) == "SMTWTFS"
  {
    InitialsColumns(letters, firstWeekday);
    MondayHeader(letters);
    SundayHeader(letters);
    MondayHeader(CLetters);
    SundayHeader(CLetters);
    assert CLetters[6..] + CLetters[..6] == "SMTWTFS";
  }

  /** Counted from a Monday, column `i` names weekday `(first_weekday + i) % 7`. */
  lemma InitialsColumns(letters: DayLetters, firstWeekday: int)
    ensures forall i :: 0 <= i < 7 ==> Initials(letters, firstWeekday)[i] == WeekdayInitial(letters, (firstWeekday + i) % 7)
  {
    BaseWeekdays();
    InitialsFromShift(letters, Date(2025, 1, 6), firstWeekday);
  }

  lemma MondayHeader(letters: DayLetters)
    ensures Initials(letters, 0) == letters
  {
    InitialsColumns(letters, 0);
    forall i | 0 <= i < 7
      ensures Initials(letters, 0)[i] == letters[i]
    {
      OneWeekMod(i);
    }
  }

  lemma SundayHeader(letters: DayLetters)
    ensures Initials(letters, 6) == letters[6..] + letters[..6]
  {
    InitialsColumns(letters, 6);
    forall i | 0 <= i < 7
      ensures Initials(letters, 6)[i] == (letters[6..] + letters[..6])[i]
    {
      OneWeekMod(6 + i);
    }
  }

  // ---------------------------------------------------------------------------
  // The month grid (`create_month_view`) and the week row (`create_week_view`)

  /** A cell of a view: an empty day of the month grid, or a day with its number,
      whether it is today (`current-day`) and whether it is dimmed (`dim-label`). */
  datatype Cell = Blank | Day(day: int, isToday: bool, dimmed: bool)

  /** Zero days before the month's first, the month's days, zero days after its last. */
  function Cells(before: nat, n: nat, after: nat): (r: seq<int>)
    ensures |r| == before + n + after
  {
    seq(before, _ => 0) + seq(n, d => d + 1) + seq(after, _ => 0)
  }

  lemma CellsAt(before: nat, n: nat, after: nat, j: int)
    requires 0 <= j < before + n + after
    ensures Cells(before, n, after)[j] == if before <= j < before + n then j - before + 1 else 0
  {
    var a, b, c := seq(before, _ => 0), seq(n, d => d + 1), seq(after, _ => 0);
    assert Cells(before, n, after) == (a + b) + c;
    if j < before + n {
      assert Cells(before, n, after)[j] == (a + b)[j];
    }
  }

  /** `Calendar(first_weekday).itermonthdays(y, m)`: the days of the weeks that
      cover the month, 0 for the days of other months. */
  function MonthCells(y: int, m: int, firstWeekday: int): (r: seq<int>)
    requires 1 <= m <= 12
  {
    var day1 := Weekday(Date(y, m, 1));
    var n := DaysInMonth(y, m);
    Cells((day1 - firstWeekday) % 7, n, (firstWeekday - day1 - n) % 7)
  }

  lemma WholeWeeksCover(day1: int, firstWeekday: int, n: int)
    requires 28 <= n <= 31
    ensures var t := (day1 - firstWeekday) % 7 + n + (firstWeekday - day1 - n) % 7;
      t % 7 == 0 && 28 <= t <= 42
  {
  }

  lemma MonthCellsLength(y: int, m: int, firstWeekday: int)
    requires 1 <= m <= 12
    ensures |MonthCells(y, m, firstWeekday)| % 7 == 0
    ensures 28 <= |MonthCells(y, m, firstWeekday)| <= 42
  {
    WholeWeeksCover(Weekday(Date(y, m, 1)), firstWeekday, DaysInMonth(y, m));
  }

  /** Cells cut into weeks of seven. */
  function Weeks(c: seq<int>): (r: seq<seq<int>>)
    requires |c| % 7 == 0
    ensures |r| == |c| / 7 && forall i :: 0 <= i < |r| ==> |r[i]| == 7
  {
    seq(|c| / 7, i requires 0 <= i < |c| / 7 => c[7 * i..7 * i + 7])
  }

  lemma WeeksAt(c: seq<int>, j: int)
    requires |c| % 7 == 0 && 0 <= j < |c|
    ensures j / 7 < |Weeks(c)| && Weeks(c)[j / 7][j % 7] == c[j]
  {
    assert Weeks(c)[j / 7] == c[7 * (j / 7)..7 * (j / 7) + 7];
  }

  /** `monthdayscalendar`: the month's cells cut into four to six weeks. */
  function MonthRows(y: int, m: int, firstWeekday: int): (r: seq<seq<int>>)
    requires 1 <= m <= 12
    ensures 4 <= |r| <= 6 && forall i :: 0 <= i < |r| ==> |r[i]| == 7
  {
    MonthCellsLength(y, m, firstWeekday);
    Weeks(MonthCells(y, m, firstWeekday))
  }

  /** Day `d` of the month sits in row `(before + d - 1) / 7`, column
      `(before + d - 1) % 7`, and that column holds the days whose weekday is
      `(first_weekday + column) % 7`, the weekday the header names there. */
  lemma MonthDayPlace(y: int, m: int, firstWeekday: int, d: int)
    requires 1 <= m <= 12 && 1 <= d <= DaysInMonth(y, m)
    ensures var j := (Weekday(Date(y, m, 1)) - firstWeekday) % 7 + d - 1;
      var rows := MonthRows(y, m, firstWeekday);
      j / 7 < |rows| && rows[j / 7][j % 7] == d &&
      Weekday(Date(y, m, d)) == WeekdayOffsets(firstWeekday)[j % 7]
  {
    var day1, n := Weekday(Date(y, m, 1)), DaysInMonth(y, m);
    var before, after := (day1 - firstWeekday) % 7, (firstWeekday - day1 - n) % 7;
    var j := before + d - 1;
    MonthCellsLength(y, m, firstWeekday);
    CellsAt(before, n, after, j);
    WeeksAt(MonthCells(y, m, firstWeekday), j);
    DayColumn(y, m, firstWeekday, d);
  }

  /** The weekday of day `d` is the header's weekday for its column. */
  lemma DayColumn(y: int, m: int, firstWeekday: int, d: int)
    requires 1 <= m <= 12 && 1 <= d <= DaysInMonth(y, m)
    ensures var j := (Weekday(Date(y, m, 1)) - firstWeekday) % 7 + d - 1;
      Weekday(Date(y, m, d)) == WeekdayOffsets(firstWeekday)[j % 7]
  {
    DayWeekday(y, m, d);
    ColumnArith(Weekday(Date(y, m, 1)), firstWeekday, d);
  }

  /** Day `d` of a month falls `d - 1` weekdays after the month's first. */
  lemma DayWeekday(y: int, m: int, d: int)
    requires 1 <= m <= 12 && 1 <= d <= DaysInMonth(y, m)
    ensures Weekday(Date(y, m, d)) == (Weekday(Date(y, m, 1)) + d - 1) % 7
  {
    assert Ordinal(Date(y, m, d)) == Ordinal(Date(y, m, 1)) + (d - 1);
    ShiftSum(d - 1, Ordinal(Date(y, m, 1)) + 6);
  }

  lemma ColumnArith(day1: int, firstWeekday: int, d: int)
    ensures var j := (day1 - firstWeekday) % 7 + d - 1;
      (day1 + d - 1) % 7 == (firstWeekday + j % 7) % 7
  {
  }

  /** Every non-empty cell of the month rows is a day of the month, in the column of
      its weekday. */
  lemma MonthRowsCells(y: int, m: int, firstWeekday: int, r: int, col: int)
    requires 1 <= m <= 12
    requires 0 <= r < |MonthRows(y, m, firstWeekday)| && 0 <= col < 7
    ensures var d := MonthRows(y, m, firstWeekday)[r][col];
      d != 0 ==> 1 <= d <= DaysInMonth(y, m) && Weekday(Date(y, m, d)) == WeekdayOffsets(firstWeekday)[col]
  {
    var day1, n := Weekday(Date(y, m, 1)), DaysInMonth(y, m);
    var before, after := (day1 - firstWeekday) % 7, (firstWeekday - day1 - n) % 7;
    MonthCellsLength(y, m, firstWeekday);
    var c := MonthCells(y, m, firstWeekday);
    var j := 7 * r + col;
    CellsAt(before, n, after, j);
    WeeksAt(c, j);
    assert j / 7 == r && j % 7 == col;
    if c[j] != 0 {
      DayColumn(y, m, firstWeekday, c[j]);
    }
  }

  /** A row of seven empty days. */
  function EmptyWeek(): seq<int>
  {
    seq(7, _ => 0)
  }

  /** The month rows padded with empty weeks to at least six. */
  function Padded(rows: seq<seq<int>>): (r: seq<seq<int>>)
    ensures |r| == Max(|rows|, 6) && r[..|rows|] == rows
    ensures forall i :: |rows| <= i < |r| ==> r[i] == EmptyWeek()
  {
    if |rows| >= 6 then rows else rows + seq(6 - |rows|, _ => EmptyWeek())
  }

  /** The padding loop of `create_month_view`. */
  method PadRows(rows: seq<seq<int>>) returns (r: seq<seq<int>>)
    ensures r == Padded(rows)
  {
    r := rows;
    while |r| < 6
      invariant |rows| <= |r| <= Max(|rows|, 6) && r[..|rows|] == rows
      invariant forall i :: |rows| <= i < |r| ==> r[i] == EmptyWeek()
      decreases 6 - |r|
    {
      r := r + [EmptyWeek()];
    }
  }

  /** The cell for day number `dayNum` of month (y, m); day 0 is an empty cell. */
  function MonthCell(y: int, m: int, dayNum: int, today: Date): Cell
  {
    if dayNum == 0 then Blank else Day(dayNum, Date(y, m, dayNum) == today, false)
  }

  /** The month view's grid: six rows of seven cells. */
  function MonthGrid(y: int, m: int, firstWeekday: int, today: Date): (g: seq<seq<Cell>>)
    requires 1 <= m <= 12
    ensures |g| == 6 && forall r :: 0 <= r < 6 ==> |g[r]| == 7
  {
    var rows := Padded(MonthRows(y, m, firstWeekday));
    seq(6, r requires 0 <= r < 6 => seq(7, c requires 0 <= c < 7 => MonthCell(y, m, rows[r][c], today)))
  }

  /** The grid shows each day of the month once, in the column whose header names
      its weekday, highlighted exactly when it is today; every other cell is empty. */
  lemma MonthGridLayout(y: int, m: int, firstWeekday: int, today: Date, r: int, c: int)
    requires 1 <= m <= 12 && 0 <= r < 6 && 0 <= c < 7
    ensures var cell := MonthGrid(y, m, firstWeekday, today)[r][c];
      cell.Day? ==> (1 <= cell.day <= DaysInMonth(y, m) && !cell.dimmed &&
        (cell.isToday <==> Date(y, m, cell.day) == today) &&
        Weekday(Date(y, m, cell.day)) == WeekdayOffsets(firstWeekday)[c])
  {
    var rows := MonthRows(y, m, firstWeekday);
    if r < |rows| {
      MonthRowsCells(y, m, firstWeekday, r, c);
      assert Padded(rows)[r] == rows[r];
    }
  }

  /** Day `d` of the month appears in the grid, at the place `MonthDayPlace` gives. */
  lemma MonthGridHasDay(y: int, m: int, firstWeekday: int, today: Date, d: int)
    requires 1 <= m <= 12 && 1 <= d <= DaysInMonth(y, m)
    ensures var j := (Weekday(Date(y, m, 1)) - firstWeekday) % 7 + d - 1;
      j / 7 < 6 && MonthGrid(y, m, firstWeekday, today)[j / 7][j % 7] == Day(d, Date(y, m, d) == today, false)
  {
    MonthDayPlace(y, m, firstWeekday, d);
    var j := (Weekday(Date(y, m, 1)) - firstWeekday) % 7 + d - 1;
    assert Padded(MonthRows(y, m, firstWeekday))[j / 7] == MonthRows(y, m, firstWeekday)[j / 7];
  }

  /** `create_month_view`: the rows of `monthdayscalendar`, padded, turned into cells
      row by row. */
  method CreateMonthView(y: int, m: int, firstWeekday: int, today: Date) returns (grid: seq<seq<Cell>>)
    requires 1 <= m <= 12
    ensures grid == MonthGrid(y, m, firstWeekday, today)
  {
    var monthDays := MonthRows(y, m, firstWeekday);
    monthDays := PadRows(monthDays);
    ghost var g := MonthGrid(y, m, firstWeekday, today);
    grid := [];
    for row := 0 to |monthDays|
      invariant grid == g[..row]
    {
      var cells := [];
      for col := 0 to 7
        invariant cells == g[row][..col]
      {
        cells := cells + [MonthCell(y, m, monthDays[row][col], today)];
      }
      assert cells == g[row];
      grid := grid + [cells];
    }
    assert grid == g;
  }

  /** The cell for the day `col` days after the first day of the week: dimmed when
      its month is not the first day's. */
  function WeekCell(first: Date, col: nat, today: Date): Cell
    requires ValidDate(first)
  {
    var d := AddDays(first, col);
    Day(d.day, d == today, d.month != first.month)
  }

  /** The week view's row of seven cells. */
  function WeekRow(first: Date, today: Date): (r: seq<Cell>)
    requires ValidDate(first)
    ensures |r| == 7
  {
    seq(7, c requires 0 <= c < 7 => WeekCell(first, c, today))
  }

  /** `create_week_view`. */
  method CreateWeekView(first: Date, today: Date) returns (cells: seq<Cell>)
    requires ValidDate(first)
    ensures cells == WeekRow(first, today)
  {
    ghost var row := WeekRow(first, today);
    cells := [];
    for col := 0 to 7
      invariant cells == row[..col]
    {
      var day := AddDays(first, col);
      assert row[col] == WeekCell(first, col, today);
      assert row[..col + 1] == row[..col] + [row[col]];
      cells := cells + [Day(day.day, day == today, day.month != first.month)];
    }
    assert row[..7] == row;
  }

  /** In the week view exactly the days past the end of the first day's month are
      dimmed, and they are numbered from 1 again. */
  lemma WeekDimming(first: Date, today: Date, c: nat)
    requires ValidDate(first) && c < 7
    ensures var cell, dim := WeekRow(first, today)[c], DaysInMonth(first.year, first.month);
      cell.Day? && (cell.dimmed <==> first.day + c > dim) &&
      cell.day == (if first.day + c <= dim then first.day + c else first.day + c - dim)
  {
    AddDaysInMonth(first, c);
  }

  /** Under the intended header, each day of the grid sits under its own weekday's
      initial, in every locale. */
  lemma HeaderMatchesGrid(letters: DayLetters, y: int, m: int, firstWeekday: int, today: Date, r: int, c: int)
    requires 1 <= m <= 12 && 0 <= r < 6 && 0 <= c < 7
    requires MonthGrid(y, m, firstWeekday, today)[r][c].Day?
    ensures var d := MonthGrid(y, m, firstWeekday, today)[r][c].day;
      1 <= d <= DaysInMonth(y, m) && Initials(letters, firstWeekday)[c] == WeekdayInitial(letters, Weekday(Date(y, m, d)))
  {
    MonthGridLayout(y, m, firstWeekday, today, r, c);
    InitialsFollowOffsets(letters, firstWeekday);
  }

  /** As written, the header does not match the grid: in January 2025 with weeks
      starting on Monday, Wednesday the 1st is in column 2, headed by Friday's
      letter ("F" in the C locale). */
  lemma HeaderAsWrittenMismatch(letters: DayLetters, today: Date)
    ensures MonthGrid(2025, 1, 0, today)[0][2] == Day(1, Date(2025, 1, 1) == today, false)
    ensures WeekdayInitial(letters, Weekday(Date(2025, 1, 1))) == letters[2] && InitialsAsWritten(letters, 0)[2] == letters[4]
    ensures InitialsAsWritten(CLetters, 0)[2] == 'F' && WeekdayInitial(CLetters, Weekday(Date(2025, 1, 1))) == 'W'
  {
    BaseWeekdays();
    MonthGridHasDay(2025, 1, 0, today, 1);
    InitialsAsWrittenShifted(letters, 0);
    InitialsAsWrittenShifted(CLetters, 0);
  }

  // ---------------------------------------------------------------------------
  // The widget

  /** A view in the stack, identified by what it was built from: the month grid of
      (`year`, `month`) with weeks starting on `firstWeekday`, or the week row from
      `first`, each highlighting `today`. Its cells are `ViewCells`. */
  datatype View =
    | MonthView(year: int, month: int, firstWeekday: int, today: Date)
    | WeekView(first: Date, today: Date)

  predicate WellBuilt(v: View)
  {
    match v
    case MonthView(_, month, _, _) => 1 <= month <= 12
    case WeekView(first, _) => ValidDate(first)
  }

  /** The cells a view shows: rows of the month grid, or the single week row. */
  function ViewCells(v: View): seq<seq<Cell>>
    requires WellBuilt(v)
  {
    match v
    case MonthView(y, m, fw, today) => MonthGrid(y, m, fw, today)
    case WeekView(first, today) => [WeekRow(first, today)]
  }

  /** The stack's transition type; Gtk's default is no transition. */
  datatype Transition = NoTransition | SlideLeft | SlideRight

  /** `cache_threshold`. */
  const CacheThreshold := 3

  function Distance(a: int, b: int): nat
  {
    if a >= b then a - b else b - a
  }

  /** The keys `prune_cache` collects: those more than `cache_threshold` indices away
      from `center`. */
  function FarKeys(mode: ViewMode, views: map<Key, View>, center: Key): set<Key>
  {
    set k | k in views && Distance(KeyIndex(mode, k), KeyIndex(mode, center)) > CacheThreshold
  }

  /** The cache after pruning around `center`. */
  function Pruned(mode: ViewMode, views: map<Key, View>, center: Key): (r: map<Key, View>)
    ensures r.Keys <= views.Keys
    ensures center in views ==> center in r && r[center] == views[center]
  {
    views - FarKeys(mode, views, center)
  }

  lemma {:induction false} SubsetSize<T>(a: set<T>, b: set<T>)
    requires a <= b
    ensures |a| <= |b|
    decreases a
  {
    if a != {} {
      var x :| x in a;
      SubsetSize(a - {x}, b - {x});
    }
  }

  /** The seven keys whose index is within `cache_threshold` of `c`. */
  function NearKeys(mode: ViewMode, c: int): set<Key>
  {
    {KeyOfIndex(mode, c - 3), KeyOfIndex(mode, c - 2), KeyOfIndex(mode, c - 1), KeyOfIndex(mode, c),
     KeyOfIndex(mode, c + 1), KeyOfIndex(mode, c + 2), KeyOfIndex(mode, c + 3)}
  }

  lemma SevenSize<T>(a: T, b: T, c: T, d: T, e: T, f: T, g: T)
    ensures |{a, b, c, d, e, f, g}| <= 7
  {
    assert |{a}| == 1;
    assert |{a, b}| <= 2;
    assert |{a, b, c}| <= 3;
    assert |{a, b, c, d}| <= 4;
    assert |{a, b, c, d, e}| <= 5;
    assert |{a, b, c, d, e, f}| <= 6;
  }

  lemma NearKey(mode: ViewMode, k: Key, c: int)
    requires WellFormedKey(mode, k) && Distance(KeyIndex(mode, k), c) <= CacheThreshold
    ensures k in NearKeys(mode, c)
  {
    KeyOfIndexInverse(mode, k);
    var i := KeyIndex(mode, k);
    assert KeyOfIndex(mode, c + (i - c)) == k;
  }

  /** With well-formed keys, pruning leaves at most seven views: the index is
      injective, and only seven indices lie within the threshold. */
  lemma PrunedSize(mode: ViewMode, views: map<Key, View>, center: Key)
    requires KeysWellFormed(mode, views)
    ensures |Pruned(mode, views, center).Keys| <= 7
  {
    var c := KeyIndex(mode, center);
    var kept := Pruned(mode, views, center).Keys;
    forall k | k in kept
      ensures k in NearKeys(mode, c)
    {
      NearKey(mode, k, c);
    }
    SubsetSize(kept, NearKeys(mode, c));
    SevenSize(KeyOfIndex(mode, c - 3), KeyOfIndex(mode, c - 2), KeyOfIndex(mode, c - 1), KeyOfIndex(mode, c),
              KeyOfIndex(mode, c + 1), KeyOfIndex(mode, c + 2), KeyOfIndex(mode, c + 3));
  }

  ghost predicate KeysWellFormed(mode: ViewMode, views: map<Key, View>)
  {
    forall k :: k in views ==> WellFormedKey(mode, k)
  }

  // ---------------------------------------------------------------------------
  // What the widget shows: `current_shown_date` with `current_year` and
  // `current_month`, the stack of cached views, and the header

  /** `current_shown_date`, `current_year` and `current_month`. */
  datatype Nav = Nav(shown: Date, year: int, month: int)

  /** The shown date is a real date whose year and month are `current_year` and
      `current_month`; the month view shows the first of its month. */
  predicate NavOk(mode: ViewMode, n: Nav)
  {
    ValidDate(n.shown) && n.year == n.shown.year && n.month == n.shown.month &&
    (mode == Month ==> n.shown.day == 1)
  }

  /** Showing `shown`: the year and month are read back from it. */
  function NavAt(shown: Date): Nav
  {
    Nav(shown, shown.year, shown.month)
  }

  /** The key of the shown month or week. */
  function KeyOf(mode: ViewMode, n: Nav): Key
    requires ValidDate(n.shown)
  {
    if mode == Month then (n.year, n.month) else IsoYearWeek(n.shown)
  }

  lemma KeyOfWellFormed(mode: ViewMode, n: Nav)
    requires NavOk(mode, n)
    ensures WellFormedKey(mode, KeyOf(mode, n))
  {
    if mode == Week {
      IsoWeekRange(n.shown);
    }
  }

  /** The view `create_month_view` or `create_week_view` builds for `n`. */
  function ViewOf(mode: ViewMode, n: Nav, firstWeekday: int, today: Date): View
  {
    if mode == Month then MonthView(n.year, n.month, firstWeekday, today) else WeekView(n.shown, today)
  }

  /** The month or week containing `day`: the first of its month, or the first day
      of its week (`days_to_subtract` days back). */
  function NavOn(mode: ViewMode, day: Date, firstWeekday: int): Nav
    requires ValidDate(day)
  {
    if mode == Month then NavAt(Date(day.year, day.month, 1)) else NavAt(WeekStartOf(day, firstWeekday))
  }

  /** `on_prev_clicked`: the first of the previous month, or seven days earlier. */
  function PrevNav(mode: ViewMode, n: Nav): Nav
    requires ValidDate(n.shown)
  {
    if mode == Month then
      (var k := PrevMonth((n.shown.year, n.shown.month)); NavAt(n.shown.(year := k.0, month := k.1)))
    else NavAt(AddDays(n.shown, -DaysPerWeek))
  }

  /** `on_next_clicked`: the first of the next month, or seven days later. */
  function NextNav(mode: ViewMode, n: Nav): Nav
    requires ValidDate(n.shown)
  {
    if mode == Month then
      (var k := NextMonth((n.shown.year, n.shown.month)); NavAt(n.shown.(year := k.0, month := k.1)))
    else NavAt(AddDays(n.shown, DaysPerWeek))
  }

  /** The day, month or week a day lies in is a consistent place to show. */
  lemma NavOnOk(mode: ViewMode, day: Date, firstWeekday: int)
    requires ValidDate(day) && 0 <= firstWeekday < 7
    ensures NavOk(mode, NavOn(mode, day, firstWeekday))
    ensures mode == Month ==> KeyOf(mode, NavOn(mode, day, firstWeekday)) == (day.year, day.month)
    ensures mode == Week ==> Weekday(NavOn(mode, day, firstWeekday).shown) == firstWeekday
  {
    if mode == Week {
      var start := WeekStartOf(day, firstWeekday);
      assert NavOn(mode, day, firstWeekday) == NavAt(start);
      WeekStart(day, firstWeekday);
    } else {
      var first := Date(day.year, day.month, 1);
      assert NavOn(mode, day, firstWeekday) == NavAt(first);
      assert ValidDate(first) by {
        assert DaysInMonth(day.year, day.month) >= 28;
      }
    }
  }

  /** The navigation state on a day is well formed. */
  lemma NavOnValid(mode: ViewMode, day: Date, firstWeekday: int, n: Nav)
    requires ValidDate(day) && 0 <= firstWeekday < 7 && n == NavOn(mode, day, firstWeekday)
    ensures NavOk(mode, n)
  {
    NavOnOk(mode, day, firstWeekday);
  }

  /** Previous and next keep the place consistent. */
  lemma NavStepsOk(mode: ViewMode, n: Nav)
    requires NavOk(mode, n)
    ensures NavOk(mode, PrevNav(mode, n)) && NavOk(mode, NextNav(mode, n))
  {
  }

  /** Previous and next undo each other; in the month view they move the key one
      month back or forward, in the week view seven days, keeping the weekday. */
  lemma NavSteps(mode: ViewMode, n: Nav)
    requires NavOk(mode, n)
    ensures NextNav(mode, PrevNav(mode, n)) == n && PrevNav(mode, NextNav(mode, n)) == n
    ensures mode == Month ==>
      KeyOf(mode, PrevNav(mode, n)) == PrevMonth(KeyOf(mode, n)) &&
      KeyOf(mode, NextNav(mode, n)) == NextMonth(KeyOf(mode, n))
    ensures mode == Week ==>
      PrevNav(mode, n).shown == AddDays(n.shown, -DaysPerWeek) &&
      NextNav(mode, n).shown == AddDays(n.shown, DaysPerWeek) &&
      Weekday(PrevNav(mode, n).shown) == Weekday(n.shown) == Weekday(NextNav(mode, n).shown)
  {
    NavStepsOk(mode, n);
    if mode == Month {
      MonthNavigation((n.shown.year, n.shown.month));
    } else {
      WeekNavigation(n.shown);
    }
  }

  /** In the month view "previous" always slides right and "next" always slides
      left. */
  lemma MonthSlides(s: Stack, n: Nav, built: View)
    requires NavOk(Month, n) && s.previousKey == KeyOf(Month, n)
    ensures StackAfter(Month, s, KeyOf(Month, PrevNav(Month, n)), built).transition == SlideRight
    ensures StackAfter(Month, s, KeyOf(Month, NextNav(Month, n)), built).transition == SlideLeft
  {
    NavSteps(Month, n);
    MonthNavigation(KeyOf(Month, n));
  }

  /** The singleton cache of a key is kept whole by pruning around that key. */
  lemma PrunedSingleton(mode: ViewMode, key: Key, v: View)
    ensures Pruned(mode, map[key := v], key) == map[key := v]
  {
    assert FarKeys(mode, map[key := v], key) == {};
  }

  /** Showing the previous key on an emptied cache leaves that key's view alone,
      with the transition unchanged. */
  lemma StackAfterEmptied(mode: ViewMode, s: Stack, key: Key, built: View)
    requires s.views == map[] && s.previousKey == key
    ensures StackAfter(mode, s, key, built) == Stack(key, map[key := built], s.transition, key)
  {
    assert !KeyLess(key, key);
    assert Shown(s, key, built) == Stack(key, map[key := built], s.transition, key);
    PrunedSingleton(mode, key, built);
  }

  /** The stack: the key shown last (`previous_key`), the cached views
      (`month_views` and the stack's children), the transition and the visible
      child. */
  datatype Stack = Stack(previousKey: Key, views: map<Key, View>, transition: Transition, visible: Key)

  /** `update_calendar`'s choice of transition: slide left to a later key, right to an
      earlier one, keep the last one for the same key. */
  function SlideTo(previous: Key, key: Key, t: Transition): Transition
  {
    if KeyLess(previous, key) then SlideLeft else if KeyLess(key, previous) then SlideRight else t
  }

  /** The first part of `update_calendar`: the view `built` is added only if `key` is
      not cached, and `key` becomes the previous and the visible key. */
  function Shown(s: Stack, key: Key, built: View): Stack
  {
    Stack(key, if key in s.views then s.views else s.views[key := built], SlideTo(s.previousKey, key, s.transition), key)
  }

  /** `prune_cache`: the views too far from the previous key are dropped. */
  function PruneStack(mode: ViewMode, s: Stack): Stack
  {
    s.(views := Pruned(mode, s.views, s.previousKey))
  }

  /** `update_calendar` on the stack: show the key's view, then prune around it. */
  function StackAfter(mode: ViewMode, s: Stack, key: Key, built: View): Stack
  {
    PruneStack(mode, Shown(s, key, built))
  }

  /** After `update_calendar` the key's view is shown, the cached one if there was
      one, and at most seven views with well-formed keys remain. */
  lemma StackAfterValid(mode: ViewMode, s: Stack, key: Key, built: View)
    requires KeysWellFormed(mode, s.views) && WellFormedKey(mode, key)
    ensures var r := StackAfter(mode, s, key, built);
      r.previousKey == key && r.visible == key && key in r.views &&
      r.views[key] == (if key in s.views then s.views[key] else built) &&
      KeysWellFormed(mode, r.views) && |r.views.Keys| <= 7
  {
    var cached := Shown(s, key, built).views;
    assert KeysWellFormed(mode, cached);
    PrunedSize(mode, cached, key);
  }

  /** Every view kept lies within the threshold of the key shown, every cached view
      within it is kept, and the slide goes left to a later key and right to an
      earlier one. */
  lemma StackAfterKeeps(mode: ViewMode, s: Stack, key: Key, built: View)
    ensures var r := StackAfter(mode, s, key, built);
      forall k :: k in r.views ==> Distance(KeyIndex(mode, k), KeyIndex(mode, key)) <= CacheThreshold
    ensures var r := StackAfter(mode, s, key, built);
      forall k :: k in s.views && Distance(KeyIndex(mode, k), KeyIndex(mode, key)) <= CacheThreshold ==>
        k in r.views && r.views[k] == s.views[k]
    ensures var t := StackAfter(mode, s, key, built).transition;
      (KeyLess(s.previousKey, key) ==> t == SlideLeft) &&
      (KeyLess(key, s.previousKey) ==> t == SlideRight) &&
      (key == s.previousKey ==> t == s.transition)
  {
  }

  /** The header: the month label's (year, month) and the weekday initials. */
  datatype Header = Header(monthLabel: (int, int), initials: string)

  /** `update_header`: the month and year of the shown date, and the initials of the
      week starting on `first_weekday` in the locale's letters. */
  function HeaderOf(letters: DayLetters, n: Nav, firstWeekday: int): Header
  {
    Header((n.shown.year, n.shown.month), Initials(letters, firstWeekday))
  }

  class Calendar {
    const mode: ViewMode
    /** The weekday letters of the process's locale. */
    const letters: DayLetters
    /** `first_weekday`: 0 is Monday. */
    var firstWeekday: int
    /** `current_day_date`. */
    var today: Date
    var nav: Nav
    var stack: Stack
    var header: Header

    /** The state between events: the place shown is consistent, the cache holds
        well-formed keys, at most seven of them, and shows the current key. */
    ghost predicate Valid()
      reads this
    {
      0 <= firstWeekday < 7 && ValidDate(today) && NavOk(mode, nav) &&
      KeysWellFormed(mode, stack.views) && |stack.views.Keys| <= 7 &&
      stack.previousKey == KeyOf(mode, nav) && stack.visible == stack.previousKey &&
      stack.previousKey in stack.views
    }

    /** `__init__`: the month or week containing `now`, with weeks starting on Monday
        until the locale says otherwise. */
    constructor (viewMode: ViewMode, localeLetters: DayLetters, now: Date)
      requires ValidDate(now)
      ensures Valid() && mode == viewMode && letters == localeLetters && firstWeekday == 0 && today == now
      ensures nav == NavOn(mode, today, firstWeekday)
      ensures stack.views == map[KeyOf(mode, nav) := ViewOf(mode, nav, firstWeekday, today)]
      ensures stack.transition == NoTransition && header == HeaderOf(letters, nav, firstWeekday)
    {
      mode := viewMode;
      letters := localeLetters;
      firstWeekday := 0;
      today := now;
      var n := NavOn(viewMode, now, 0);
      nav := n;
      var key := KeyOf(viewMode, n);
      stack := Stack(key, map[], NoTransition, key);
      header := Header((0, 0), "");
      new;
      NavOnValid(mode, today, firstWeekday, nav);
      UpdateHeader();
      StackAfterEmptied(mode, stack, key, ViewOf(mode, nav, firstWeekday, today));
      UpdateCalendar();
    }

    /** `update_header`. */
    method UpdateHeader()
      modifies this`header
      ensures header == HeaderOf(letters, nav, firstWeekday)
    {
      header := Header((nav.shown.year, nav.shown.month), Initials(letters, firstWeekday));
    }

    /** `update_calendar`: show the current key's view, refresh the header and prune
        the cache around the key. */
    method UpdateCalendar()
      requires 0 <= firstWeekday < 7 && ValidDate(today) && NavOk(mode, nav)
      requires KeysWellFormed(mode, stack.views)
      modifies this`stack, this`header
      ensures stack == StackAfter(mode, old(stack), KeyOf(mode, nav), ViewOf(mode, nav, firstWeekday, today))
      ensures header == HeaderOf(letters, nav, firstWeekday)
      ensures Valid()
    {
      ShowCurrent();
      UpdateHeader();
      PruneCache();
      KeyOfWellFormed(mode, nav);
      StackAfterValid(mode, old(stack), KeyOf(mode, nav), ViewOf(mode, nav, firstWeekday, today));
    }

    /** The first part of `update_calendar`: build the view only if its key is not
        cached, choose the slide, and show the view. */
    method ShowCurrent()
      requires ValidDate(nav.shown)
      modifies this`stack
      ensures stack == Shown(old(stack), KeyOf(mode, nav), ViewOf(mode, nav, firstWeekday, today))
    {
      var newKey := KeyOf(mode, nav);
      var built: Option<View> := None;
      if newKey !in stack.views {
        if mode == Month {
          built := Some(MonthView(nav.year, nav.month, firstWeekday, today));
        } else {
          built := Some(WeekView(nav.shown, today));
        }
      }
      var t := stack.transition;
      if KeyLess(stack.previousKey, newKey) {
        t := SlideLeft;
      } else if KeyLess(newKey, stack.previousKey) {
        t := SlideRight;
      }
      var views := stack.views;
      if built.Some? {
        views := views[newKey := built.value];
      }
      stack := Stack(newKey, views, t, newKey);
    }

    /** `prune_cache`: collect the keys too far from the previous key, then remove
        them. */
    method PruneCache()
      modifies this`stack
      ensures stack == PruneStack(mode, old(stack))
    {
      var stale := StaleKeys(mode, stack.views, KeyIndex(mode, stack.previousKey));
      var todo := stale;
      while exists x :: x in todo
        invariant todo <= stale
        invariant stack == old(stack).(views := old(stack).views - (stale - todo))
        decreases todo
      {
        var k :| k in todo;
        stack := stack.(views := stack.views - {k});
        todo := todo - {k};
      }
    }

    /** `on_prev_clicked`: step the shown month or week, then `update_calendar`. */
    method OnPrevClicked()
      requires Valid()
      modifies this`nav, this`stack, this`header
      ensures Valid() && nav == PrevNav(mode, old(nav))
      ensures stack == StackAfter(mode, old(stack), KeyOf(mode, nav), ViewOf(mode, nav, firstWeekday, today))
      ensures header == HeaderOf(letters, nav, firstWeekday)
    {
      ghost var s0 := stack;
      StepPrev();
      assert stack == s0 && KeysWellFormed(mode, stack.views);
      ghost var n1 := nav;
      UpdateCalendar();
      assert nav == n1;
    }

    /** The first part of `on_prev_clicked`: the new `current_shown_date`,
        `current_year` and `current_month`. */
    method StepPrev()
      requires NavOk(mode, nav)
      modifies this`nav
      ensures nav == PrevNav(mode, old(nav)) && NavOk(mode, nav)
    {
      NavStepsOk(mode, nav);
      if mode == Month {
        var k := PrevMonth((nav.shown.year, nav.shown.month));
        var shown := nav.shown.(year := k.0, month := k.1);
        nav := Nav(shown, shown.year, shown.month);
      } else {
        var shown := AddDays(nav.shown, -DaysPerWeek);
        nav := Nav(shown, shown.year, shown.month);
      }
    }

    /** `on_next_clicked`: step the shown month or week, then `update_calendar`. */
    method OnNextClicked()
      requires Valid()
      modifies this`nav, this`stack, this`header
      ensures Valid() && nav == NextNav(mode, old(nav))
      ensures stack == StackAfter(mode, old(stack), KeyOf(mode, nav), ViewOf(mode, nav, firstWeekday, today))
      ensures header == HeaderOf(letters, nav, firstWeekday)
    {
      ghost var s0 := stack;
      StepNext();
      assert stack == s0;
      UpdateCalendar();
    }

    /** The first part of `on_next_clicked`: the new `current_shown_date`,
        `current_year` and `current_month`. */
    method StepNext()
      requires NavOk(mode, nav)
      modifies this`nav
      ensures nav == NextNav(mode, old(nav)) && NavOk(mode, nav)
    {
      NavStepsOk(mode, nav);
      if mode == Month {
        var k := NextMonth((nav.shown.year, nav.shown.month));
        var shown := nav.shown.(year := k.0, month := k.1);
        nav := Nav(shown, shown.year, shown.month);
      } else {
        var shown := AddDays(nav.shown, DaysPerWeek);
        nav := Nav(shown, shown.year, shown.month);
      }
    }

    /** `on_midnight`: move to the new day's month or week, drop its cached view and
        rebuild it so that the new day is highlighted; the timeout does not repeat. */
    method OnMidnight(now: Date) returns (again: bool)
      requires Valid() && ValidDate(now)
      modifies this`today, this`nav, this`stack, this`header
      ensures Valid() && today == now && nav == NavOn(mode, now, firstWeekday) && !again
      ensures stack.views[KeyOf(mode, nav)] == ViewOf(mode, nav, firstWeekday, now)
      ensures stack == StackAfter(mode, old(stack).(views := old(stack).views - {KeyOf(mode, nav)}),
                                  KeyOf(mode, nav), ViewOf(mode, nav, firstWeekday, now))
      ensures header == HeaderOf(letters, nav, firstWeekday)
    {
      today := now;
      nav := NavOn(mode, now, firstWeekday);
      NavOnOk(mode, now, firstWeekday);
      var key := KeyOf(mode, nav);
      if key in stack.views {
        stack := stack.(views := stack.views - {key});
      } else {
        assert stack.views - {key} == stack.views;
      }
      UpdateCalendar();
      again := false;
    }

    /** `check_date_change`, called every second and on resume: a new date triggers
        `on_midnight`; the timer always continues. */
    method CheckDateChange(now: Date) returns (keep: bool)
      requires Valid() && ValidDate(now)
      modifies this`today, this`nav, this`stack, this`header
      ensures Valid() && keep && today == now
      ensures old(today) == now ==> stack == old(stack) && nav == old(nav) && header == old(header)
      ensures old(today) != now ==>
        nav == NavOn(mode, now, firstWeekday) && header == HeaderOf(letters, nav, firstWeekday) &&
        stack == StackAfter(mode, old(stack).(views := old(stack).views - {KeyOf(mode, nav)}),
                            KeyOf(mode, nav), ViewOf(mode, nav, firstWeekday, now))
    {
      if now != today {
        var _ := OnMidnight(now);
      }
      keep := true;
    }

    /** `_update_first_weekday`: a new first weekday empties the cache and rebuilds
        the header and the current view; the idle callback never repeats. */
    method UpdateFirstWeekday(newFirstWeekday: int) returns (again: bool)
      requires Valid() && 0 <= newFirstWeekday < 7
      modifies this`firstWeekday, this`stack, this`header
      ensures Valid() && !again && firstWeekday == newFirstWeekday
      ensures old(firstWeekday) != newFirstWeekday ==>
        stack.views == map[KeyOf(mode, nav) := ViewOf(mode, nav, newFirstWeekday, today)] &&
        stack.previousKey == KeyOf(mode, nav) && stack.visible == KeyOf(mode, nav) &&
        stack.transition == old(stack).transition && header == HeaderOf(letters, nav, newFirstWeekday)
      ensures old(firstWeekday) == newFirstWeekday ==> stack == old(stack) && header == old(header)
    {
      if firstWeekday != newFirstWeekday {
        firstWeekday := newFirstWeekday;
        stack := stack.(views := map[]);
        UpdateHeader();
        StackAfterEmptied(mode, stack, KeyOf(mode, nav), ViewOf(mode, nav, firstWeekday, today));
        UpdateCalendar();
      }
      again := false;
    }
  }

  /** The first half of `prune_cache`: the keys whose index is more than
      `cache_threshold` from `current`. */
  method StaleKeys(mode: ViewMode, views: map<Key, View>, current: int) returns (stale: set<Key>)
    ensures stale == set k | k in views && Distance(KeyIndex(mode, k), current) > CacheThreshold
  {
    stale := {};
    var todo := views.Keys;
    while exists x :: x in todo
      invariant todo <= views.Keys
      invariant stale == set k | k in views.Keys - todo && Distance(KeyIndex(mode, k), current) > CacheThreshold
      decreases todo
    {
      var k :| k in todo;
      if Distance(KeyIndex(mode, k), current) > CacheThreshold {
        stale := stale + {k};
      }
      todo := todo - {k};
    }
  }
}
