/** The three-day forecast of modules/weather_forecast.py: the entries of the MET
    Norway timeseries are grouped by day and by time period, and each period with a
    temperature becomes one cell (mean temperature, emoji of the most common
    symbol code).

    Dates are abstracted to their distance from today in days (`(date - today).days`)
    and the time of an entry to its hour; the HTTP request, the JSON decoding and
    the widgets are left out. */
module Forecast {
  import opened Common
  import opened WeatherUtils

  /** An hour of the day, as `datetime.hour` gives it. */
  type Hour = h: int | 0 <= h < 24

  // ---------------------------------------------------------------------------
  // Period names

  /** `f"{hour:02d}:00"`. */
  function HourName(h: Hour): (r: string)
    ensures |r| == 5
  {
    [DigitChar(h / 10), DigitChar(h % 10)] + ":00"
  }

  /** The four regular periods, in chronological order. */
  const Regular: seq<string> := ["00:00", "06:00", "12:00", "18:00"]

  /** `get_time_period_name`: the hour itself for today after 18:00, otherwise the
      regular period nearest to the hour. */
  function TimePeriodName(hour: Hour, isToday: bool, currentHour: int): string
  {
    if isToday && currentHour >= 18 then HourName(hour)
    else if hour < 3 then "00:00"
    else if hour < 9 then "06:00"
    else if hour < 15 then "12:00"
    else if hour < 21 then "18:00"
    else "00:00"
  }

  /** The starting hour of each regular period (`period_hour_map`). */
  const RegularStart: map<string, int> := map["00:00" := 0, "06:00" := 6, "12:00" := 12, "18:00" := 18]

  /** Distance between two hours on the 24-hour clock. */
  function ClockDistance(a: Hour, b: Hour): int
  {
    var d := if a >= b then a - b else b - a;
    if d <= 12 then d else 24 - d
  }

  lemma RegularNames()
    ensures Regular == [HourName(0), HourName(6), HourName(12), HourName(18)]
    ensures RegularStart.Keys == set p | p in Regular
    ensures forall i :: 0 <= i < 4 ==> RegularStart[Regular[i]] == 6 * i
  {
    NameDigits(0, "00:00");
    NameDigits(6, "06:00");
    NameDigits(12, "12:00");
    NameDigits(18, "18:00");
  }

  lemma NameDigits(h: Hour, s: string)
    requires |s| == 5 && s[2..] == ":00" && s[0] == DigitChar(h / 10) && s[1] == DigitChar(h % 10)
    ensures HourName(h) == s
  {
    assert forall k :: 0 <= k < 5 ==> HourName(h)[k] == s[k];
  }

  /** Outside today's evening the period is a regular one whose start is at most
      three hours away on the clock, and no other regular period is closer. */
  lemma NearestPeriod(hour: Hour, isToday: bool, currentHour: int)
    requires !(isToday && currentHour >= 18)
    ensures var p := TimePeriodName(hour, isToday, currentHour);
      p in RegularStart && ClockDistance(hour, RegularStart[p]) <= 3 &&
      forall q :: q in RegularStart ==> ClockDistance(hour, RegularStart[p]) <= ClockDistance(hour, RegularStart[q])
  {
    RegularNames();
  }

  /** Today after 18:00 the period is the hour's own name. */
  lemma EveningPeriod(hour: Hour, currentHour: int)
    requires currentHour >= 18
    ensures TimePeriodName(hour, true, currentHour) == HourName(hour)
    ensures forall h: Hour :: TimePeriodName(h, true, currentHour) == TimePeriodName(hour, true, currentHour) ==> h == hour
  {
    forall h: Hour | TimePeriodName(h, true, currentHour) == TimePeriodName(hour, true, currentHour)
      ensures h == hour
    {
      HourNameInjective(h, hour);
    }
  }

  lemma HourNameInjective(a: Hour, b: Hour)
    requires HourName(a) == HourName(b)
    ensures a == b
  {
    assert HourName(a)[0] == HourName(b)[0] && HourName(a)[1] == HourName(b)[1];
    assert a == 10 * (a / 10) + a % 10;
  }

  // ---------------------------------------------------------------------------
  // Python's ordering of strings

  /** `a < b` on Python strings: lexicographic by code point, a proper prefix
      first. */
  predicate LexLess(a: string, b: string)
    decreases |a|
  {
    |b| > 0 && (|a| == 0 || a[0] < b[0] || (a[0] == b[0] && LexLess(a[1..], b[1..])))
  }

  lemma {:induction false} LexIrreflexive(s: string)
    ensures !LexLess(s, s)
    decreases |s|
  {
    if |s| > 0 {
      LexIrreflexive(s[1..]);
    }
  }

  /** Zero-padded names order as their hours do, so sorting period names sorts the
      periods chronologically. */
  lemma HourNameOrder(a: Hour, b: Hour)
    ensures a < b <==> LexLess(HourName(a), HourName(b))
  {
    var x, y := HourName(a), HourName(b);
    assert a == 10 * (a / 10) + a % 10 && b == 10 * (b / 10) + b % 10;
    assert x[2..] == y[2..] == ":00";
    LexIrreflexive(":00");
    if x[0] == y[0] {
      assert LexLess(x, y) == LexLess(x[1..], y[1..]);
      assert x[1..][1..] == x[2..] && y[1..][1..] == y[2..];
      if x[1] == y[1] {
        assert LexLess(x[1..], y[1..]) == LexLess(x[2..], y[2..]);
      }
    }
  }

  /** Strictly increasing in Python's string order. */
  predicate LexSorted(s: seq<string>)
  {
    forall i, j :: 0 <= i < j < |s| ==> LexLess(s[i], s[j])
  }

  lemma RegularSorted()
    ensures LexSorted(Regular)
  {
    RegularNames();
    HourNameOrder(0, 6);
    HourNameOrder(0, 12);
    HourNameOrder(0, 18);
    HourNameOrder(6, 12);
    HourNameOrder(6, 18);
    HourNameOrder(12, 18);
  }

  // ---------------------------------------------------------------------------
  // Today's periods

  /** `today_periods`: after 18:00 the (at most four) hours after the current one,
      up to 23; before, the regular periods. */
  function TodayPeriods(currentHour: Hour): seq<string>
  {
    if currentHour >= 18 then
      seq(Min(4, 23 - currentHour), i requires 0 <= i < Min(4, 23 - currentHour) => HourName(currentHour + 1 + i))
    else Regular
  }

  /** The loop that builds `today_periods` after 18:00. */
  method ComputeTodayPeriods(currentHour: Hour) returns (periods: seq<string>)
    ensures periods == TodayPeriods(currentHour)
  {
    if currentHour >= 18 {
      periods := [];
      for i := 0 to 4
        invariant periods == seq(Min(i, 23 - currentHour), k requires 0 <= k < Min(i, 23 - currentHour) => HourName(currentHour + 1 + k))
      {
        var nextHour := currentHour + 1 + i;
        if nextHour <= 23 {
          periods := periods + [HourName(nextHour)];
        }
      }
    } else {
      periods := Regular;
    }
  }

  /** After 18:00 today's periods are at most four consecutive hours after the
      current one, none past 23 (none at all at 23:00); they are in Python's
      string order. */
  lemma TodayPeriodsShape(currentHour: Hour)
    ensures currentHour < 18 ==> TodayPeriods(currentHour) == Regular
    ensures currentHour >= 18 ==>
      |TodayPeriods(currentHour)| == Min(4, 23 - currentHour) &&
      forall i :: 0 <= i < |TodayPeriods(currentHour)| ==>
        currentHour < currentHour + 1 + i <= 23 && TodayPeriods(currentHour)[i] == HourName(currentHour + 1 + i)
    ensures currentHour == 23 ==> TodayPeriods(currentHour) == []
    ensures LexSorted(TodayPeriods(currentHour))
  {
    RegularSorted();
    if currentHour >= 18 {
      var s := TodayPeriods(currentHour);
      forall i, j | 0 <= i < j < |s|
        ensures LexLess(s[i], s[j])
      {
        HourNameOrder(currentHour + 1 + i, currentHour + 1 + j);
      }
    }
  }

  // ---------------------------------------------------------------------------
  // Grouping the timeseries by day and period

  /** A symbol block of an entry (`next_6_hours` or `next_1_hours`): missing (or
      without a summary), or a summary with its `symbol_code` if it has one. */
  datatype Block = Missing | Summary(symbol: Option<string>)

  /** A timeseries entry: `day` is `(date - today).days`, `hour` the hour of its
      time, `temp` the `air_temperature` of `instant.details` if present. */
  datatype Entry = Entry(day: int, hour: Hour, temp: Option<real>, next6: Block, next1: Block)

  /** The entry's symbol code: the six-hour summary's if it has a summary, else the
      one-hour summary's. */
  function EntryCode(e: Entry): Option<string>
  {
    if e.next6.Summary? then e.next6.symbol else if e.next1.Summary? then e.next1.symbol else None
  }

  /** The temperatures and the symbol codes collected for one period. */
  datatype Bucket = Bucket(temps: seq<int>, codes: seq<string>)

  /** Today and the next two days are kept. */
  predicate InWindow(e: Entry)
  {
    0 <= e.day <= 2
  }

  /** The periods of a day: today's as computed, the regular ones otherwise. */
  function DayPeriods(day: int, currentHour: Hour): seq<string>
  {
    if day == 0 then TodayPeriods(currentHour) else Regular
  }

  function PeriodOf(e: Entry, currentHour: Hour): string
  {
    TimePeriodName(e.hour, e.day == 0, currentHour)
  }

  /** An entry is counted in its period when it is in the window, its period is
      one of its day's, and, today before 18:00, the period has not started before
      the current hour. */
  predicate Counted(e: Entry, currentHour: Hour)
  {
    var p := PeriodOf(e, currentHour);
    InWindow(e) && p in DayPeriods(e.day, currentHour) &&
    !(e.day == 0 && currentHour < 18 && p in RegularStart && RegularStart[p] < currentHour)
  }

  /** The days that get a table: those of the entries in the window. */
  function WindowDays(es: seq<Entry>): set<int>
  {
    if |es| == 0 then {}
    else WindowDays(es[..|es| - 1]) + (if InWindow(es[|es| - 1]) then {es[|es| - 1].day} else {})
  }

  /** The truncated temperatures of the entries counted in period `p` of day `d`, in
      timeseries order. */
  function TempsOf(es: seq<Entry>, d: int, p: string, currentHour: Hour): seq<int>
  {
    if |es| == 0 then []
    else
      var e := es[|es| - 1];
      TempsOf(es[..|es| - 1], d, p, currentHour) +
      (if e.day == d && Counted(e, currentHour) && PeriodOf(e, currentHour) == p && e.temp.Some?
       then [Trunc(e.temp.value)] else [])
  }

  /** The non-empty symbol codes of the entries counted in period `p` of day `d`, in
      timeseries order. */
  function CodesOf(es: seq<Entry>, d: int, p: string, currentHour: Hour): seq<string>
  {
    if |es| == 0 then []
    else
      var e := es[|es| - 1];
      CodesOf(es[..|es| - 1], d, p, currentHour) +
      (if e.day == d && Counted(e, currentHour) && PeriodOf(e, currentHour) == p &&
          EntryCode(e).Some? && EntryCode(e).value != ""
       then [EntryCode(e).value] else [])
  }

  /** A table of empty buckets for the given periods. */
  function EmptyBuckets(periods: seq<string>): (r: map<string, Bucket>)
    ensures r.Keys == set p | p in periods
    ensures forall p :: p in r ==> r[p] == Bucket([], [])
  {
    map p | p in periods :: Bucket([], [])
  }

  /** What `daily_data` holds after the loop over `es`: a table for each day in the
      window, with a bucket for each of the day's periods holding exactly the values
      of the entries counted there. */
  ghost predicate GroupedFrom(daily: map<int, map<string, Bucket>>, es: seq<Entry>, currentHour: Hour)
  {
    daily.Keys == WindowDays(es) &&
    forall d :: d in daily ==>
      daily[d].Keys == (set p | p in DayPeriods(d, currentHour)) &&
      forall p :: p in daily[d] ==>
        daily[d][p] == Bucket(TempsOf(es, d, p, currentHour), CodesOf(es, d, p, currentHour))
  }

  /** A day with no entry in the window has nothing collected. */
  lemma {:induction false} EmptyStays(es: seq<Entry>, d: int, currentHour: Hour)
    requires d !in WindowDays(es)
    ensures forall p :: TempsOf(es, d, p, currentHour) == [] && CodesOf(es, d, p, currentHour) == []
  {
    if |es| > 0 {
      var front, e := es[..|es| - 1], es[|es| - 1];
      assert d !in WindowDays(front);
      assert e.day == d ==> !Counted(e, currentHour);
      EmptyStays(front, d, currentHour);
      forall p ensures TempsOf(es, d, p, currentHour) == [] && CodesOf(es, d, p, currentHour) == [] {
        assert TempsOf(front, d, p, currentHour) == [] && CodesOf(front, d, p, currentHour) == [];
      }
    }
  }

  /** A bucket after `e`'s values are appended: its truncated temperature if it has
      one, its symbol code if it has a non-empty one. */
  function Appended(b: Bucket, e: Entry): Bucket
  {
    var code := EntryCode(e);
    Bucket(b.temps + (if e.temp.Some? then [Trunc(e.temp.value)] else []),
           b.codes + (if code.Some? && code.value != "" then [code.value] else []))
  }

  /** `daily_data` after `e` is read: the table of `e`'s day is created empty if the
      day is new, and `e`'s values are appended to its period if it is counted. */
  function AddEntry(daily: map<int, map<string, Bucket>>, e: Entry, currentHour: Hour): map<int, map<string, Bucket>>
  {
    if !InWindow(e) then daily
    else
      var table := if e.day in daily then daily[e.day] else EmptyBuckets(DayPeriods(e.day, currentHour));
      var p := PeriodOf(e, currentHour);
      if Counted(e, currentHour) && p in table then daily[e.day := table[p := Appended(table[p], e)]]
      else daily[e.day := table]
  }

  lemma ExtendOne(es: seq<Entry>, e: Entry, d: int, p: string, currentHour: Hour)
    ensures (es + [e])[..|es|] == es
    ensures WindowDays(es + [e]) == WindowDays(es) + (if InWindow(e) then {e.day} else {})
    ensures TempsOf(es + [e], d, p, currentHour) == TempsOf(es, d, p, currentHour) +
      (if e.day == d && Counted(e, currentHour) && PeriodOf(e, currentHour) == p && e.temp.Some?
       then [Trunc(e.temp.value)] else [])
    ensures CodesOf(es + [e], d, p, currentHour) == CodesOf(es, d, p, currentHour) +
      (if e.day == d && Counted(e, currentHour) && PeriodOf(e, currentHour) == p &&
          EntryCode(e).Some? && EntryCode(e).value != ""
       then [EntryCode(e).value] else [])
  {
    assert (es + [e])[..|es|] == es;
  }

  /** Every table has exactly its day's periods as keys. */
  ghost predicate TablesKeyed(daily: map<int, map<string, Bucket>>, currentHour: Hour)
  {
    forall d :: d in daily ==> daily[d].Keys == (set p | p in DayPeriods(d, currentHour))
  }

  /** Reading one more entry keeps `daily_data` what the entries read so far
      determine. */
  lemma GroupedStep(daily: map<int, map<string, Bucket>>, es: seq<Entry>, e: Entry, currentHour: Hour)
    requires GroupedFrom(daily, es, currentHour)
    ensures GroupedFrom(AddEntry(daily, e, currentHour), es + [e], currentHour)
  {
    var r := AddEntry(daily, e, currentHour);
    ExtendOne(es, e, 0, "", currentHour);
    assert r.Keys == WindowDays(es + [e]);
    forall d | d in r
      ensures r[d].Keys == (set p | p in DayPeriods(d, currentHour))
      ensures forall p :: p in r[d] ==>
        r[d][p] == Bucket(TempsOf(es + [e], d, p, currentHour), CodesOf(es + [e], d, p, currentHour))
    {
      DayStep(daily, es, e, currentHour, d);
    }
  }

  lemma DayStep(daily: map<int, map<string, Bucket>>, es: seq<Entry>, e: Entry, currentHour: Hour, d: int)
    requires GroupedFrom(daily, es, currentHour)
    requires d in AddEntry(daily, e, currentHour)
    ensures var r := AddEntry(daily, e, currentHour);
      r[d].Keys == (set p | p in DayPeriods(d, currentHour)) &&
      forall p :: p in r[d] ==>
        r[d][p] == Bucket(TempsOf(es + [e], d, p, currentHour), CodesOf(es + [e], d, p, currentHour))
  {
    var r := AddEntry(daily, e, currentHour);
    if !InWindow(e) || d != e.day {
      assert r[d] == daily[d];
      forall p | p in r[d]
        ensures r[d][p] == Bucket(TempsOf(es + [e], d, p, currentHour), CodesOf(es + [e], d, p, currentHour))
      {
        ExtendOne(es, e, d, p, currentHour);
      }
    } else {
      if d !in daily {
        EmptyStays(es, d, currentHour);
      }
      var table := if d in daily then daily[d] else EmptyBuckets(DayPeriods(d, currentHour));
      var q := PeriodOf(e, currentHour);
      assert r[d] == if Counted(e, currentHour) && q in table then table[q := Appended(table[q], e)] else table;
      forall p | p in r[d]
        ensures r[d][p] == Bucket(TempsOf(es + [e], d, p, currentHour), CodesOf(es + [e], d, p, currentHour))
      {
        assert p in table && table[p] == Bucket(TempsOf(es, d, p, currentHour), CodesOf(es, d, p, currentHour));
        BucketStep(table[p], es, e, p, currentHour);
      }
    }
  }

  /** The bucket of period `p` of `e`'s day before and after `e` is read. */
  lemma BucketStep(b: Bucket, es: seq<Entry>, e: Entry, p: string, currentHour: Hour)
    requires b == Bucket(TempsOf(es, e.day, p, currentHour), CodesOf(es, e.day, p, currentHour))
    ensures (if Counted(e, currentHour) && PeriodOf(e, currentHour) == p then Appended(b, e) else b) ==
      Bucket(TempsOf(es + [e], e.day, p, currentHour), CodesOf(es + [e], e.day, p, currentHour))
  {
    ExtendOne(es, e, e.day, p, currentHour);
  }

  /** One iteration of the grouping loop: skip entries outside the window, create
      the day's table on first sight, skip periods that are not counted, and append
      the temperature and the code. */
  method ReadEntry(daily: map<int, map<string, Bucket>>, e: Entry, todayPeriods: seq<string>, currentHour: Hour)
    returns (r: map<int, map<string, Bucket>>)
    requires todayPeriods == TodayPeriods(currentHour) && TablesKeyed(daily, currentHour)
    ensures r == AddEntry(daily, e, currentHour)
  {
    r := daily;
    if e.day < 0 || e.day > 2 {
      return;
    }
    var isToday := e.day == 0;
    if e.day !in r {
      r := r[e.day := EmptyBuckets(if isToday then todayPeriods else Regular)];
    }
    var period := TimePeriodName(e.hour, isToday, currentHour);
    if isToday && period !in todayPeriods {
      return;
    }
    if isToday && currentHour < 18 && period in RegularStart && RegularStart[period] < currentHour {
      return;
    }
    if period !in r[e.day] {
      return;
    }
    var b := r[e.day][period];
    if e.temp.Some? {
      b := b.(temps := b.temps + [Trunc(e.temp.value)]);
    }
    var code := EntryCode(e);
    if code.Some? && code.value != "" {
      b := b.(codes := b.codes + [code.value]);
    }
    assert b == Appended(r[e.day][period], e);
    r := r[e.day := r[e.day][period := b]];
  }

  /** The grouping loop of `_fetch_weather_forecast_thread` (lines 320-378 of
      modules/weather_forecast.py). */
  method GroupEntries(entries: seq<Entry>, currentHour: Hour) returns (daily: map<int, map<string, Bucket>>)
    ensures daily == Grouped(entries, currentHour)
  {
    var todayPeriods := ComputeTodayPeriods(currentHour);
    daily := map[];
    for i := 0 to |entries|
      invariant GroupedFrom(daily, entries[..i], currentHour)
    {
      GroupedStep(daily, entries[..i], entries[i], currentHour);
      assert entries[..i + 1] == entries[..i] + [entries[i]];
      daily := ReadEntry(daily, entries[i], todayPeriods, currentHour);
    }
    assert entries[..|entries|] == entries;
    GroupedUnique(daily, entries, currentHour);
  }

  /** `daily_data` as the entries determine it. */
  ghost function Grouped(es: seq<Entry>, currentHour: Hour): map<int, map<string, Bucket>>
  {
    map d | d in WindowDays(es) ::
      map p | p in DayPeriods(d, currentHour) :: Bucket(TempsOf(es, d, p, currentHour), CodesOf(es, d, p, currentHour))
  }

  lemma GroupedUnique(daily: map<int, map<string, Bucket>>, es: seq<Entry>, currentHour: Hour)
    requires GroupedFrom(daily, es, currentHour)
    ensures daily == Grouped(es, currentHour)
  {
    var g := Grouped(es, currentHour);
    forall d | d in daily
      ensures daily[d] == g[d]
    {
      assert daily[d].Keys == g[d].Keys;
    }
  }

  /** Which entries are counted: none outside the window, none of today's before
      the current hour's period (before 18:00) or up to the current hour (after
      18:00), and every entry of tomorrow and the day after. */
  lemma CountedEntries(e: Entry, currentHour: Hour)
    ensures !InWindow(e) ==> !Counted(e, currentHour)
    ensures e.day == 0 && currentHour < 18 && RegularStart[PeriodOf(e, currentHour)] < currentHour ==>
      !Counted(e, currentHour)
    ensures e.day == 0 && currentHour >= 18 ==>
      (Counted(e, currentHour) <==> currentHour < e.hour <= currentHour + 4)
    ensures 1 <= e.day <= 2 ==> Counted(e, currentHour)
  {
    if e.day == 0 && currentHour >= 18 {
      CountedEvening(e, currentHour);
    } else if InWindow(e) {
      assert PeriodOf(e, currentHour) in Regular;
      TodayPeriodsShape(currentHour);
    }
  }

  /** Today after 18:00 the entries counted are those of the next four hours. */
  lemma CountedEvening(e: Entry, currentHour: Hour)
    requires e.day == 0 && currentHour >= 18
    ensures Counted(e, currentHour) <==> currentHour < e.hour <= currentHour + 4
  {
    TodayPeriodsShape(currentHour);
    var s := TodayPeriods(currentHour);
    assert PeriodOf(e, currentHour) == HourName(e.hour);
    if currentHour < e.hour <= currentHour + 4 {
      assert s[e.hour - currentHour - 1] == HourName(e.hour);
    }
    if HourName(e.hour) in s {
      var i :| 0 <= i < |s| && s[i] == HourName(e.hour);
      HourNameInjective(e.hour, currentHour + 1 + i);
    }
  }

  /** An entry that is not counted leaves every bucket as it was. */
  lemma IgnoredEntry(es: seq<Entry>, e: Entry, currentHour: Hour, d: int, p: string)
    requires !Counted(e, currentHour)
    ensures TempsOf(es + [e], d, p, currentHour) == TempsOf(es, d, p, currentHour)
    ensures CodesOf(es + [e], d, p, currentHour) == CodesOf(es, d, p, currentHour)
  {
    ExtendOne(es, e, d, p, currentHour);
  }

  // ---------------------------------------------------------------------------
  // From buckets to forecast cells

  function Sum(xs: seq<int>): int
  {
    if |xs| == 0 then 0 else Sum(xs[..|xs| - 1]) + xs[|xs| - 1]
  }

  /** `int(sum(temps) / len(temps))`, over exact rationals. */
  function MeanTemp(temps: seq<int>): int
    requires |temps| > 0
  {
    TruncDiv(Sum(temps), |temps|)
  }

  lemma {:induction false} SumBounds(xs: seq<int>, lo: int, hi: int)
    requires forall i :: 0 <= i < |xs| ==> lo <= xs[i] <= hi
    ensures lo * |xs| <= Sum(xs) <= hi * |xs|
  {
    if |xs| > 0 {
      SumBounds(xs[..|xs| - 1], lo, hi);
    }
  }

  /** The period's temperature lies between the lowest and the highest reading. */
  lemma MeanBounds(temps: seq<int>, lo: int, hi: int)
    requires |temps| > 0
    requires forall i :: 0 <= i < |temps| ==> lo <= temps[i] <= hi
    ensures lo <= MeanTemp(temps) <= hi
  {
    SumBounds(temps, lo, hi);
    var n, s, m := |temps|, Sum(temps), MeanTemp(temps);
    assert n * m - n < s < n * m + n;
    assert lo * n == n * lo && hi * n == n * hi;
    if m < lo {
      assert n * (m + 1) == n * m + n;
      MulLe(n, m + 1, lo);
      assert false;
    }
    if m > hi {
      assert n * (hi + 1) == n * hi + n;
      MulLe(n, hi + 1, m);
      assert false;
    }
  }

  lemma MulLe(n: nat, a: int, b: int)
    requires a <= b
    ensures n * a <= n * b
  {
    assert n * b - n * a == n * (b - a);
    MulNonneg(n, b - a);
  }

  /** A code that occurs at least as often as any other: one of the answers of
      `max(set(codes), key=codes.count)`, which breaks ties by set order. */
  predicate MostCommon(c: string, codes: seq<string>)
  {
    c in codes && forall x :: x in codes ==> multiset(codes)[x] <= multiset(codes)[c]
  }

  /** The most common code, the first one found on a tie. */
  method PickMostCommon(codes: seq<string>) returns (c: string)
    requires |codes| > 0
    ensures MostCommon(c, codes)
  {
    c := codes[0];
    for i := 1 to |codes|
      invariant c in codes
      invariant forall j :: 0 <= j < i ==> multiset(codes)[codes[j]] <= multiset(codes)[c]
    {
      if multiset(codes)[codes[i]] > multiset(codes)[c] {
        c := codes[i];
      }
    }
    forall x | x in codes
      ensures multiset(codes)[x] <= multiset(codes)[c]
    {
      var j :| 0 <= j < |codes| && codes[j] == x;
    }
  }

  /** One period of a day's forecast: its name, temperature and emoji. */
  datatype PeriodCell = PeriodCell(name: string, temp: int, emoji: string)

  /** One day's forecast: the day (days after today) and its periods. */
  datatype DayCells = DayCells(day: int, cells: seq<PeriodCell>)

  /** The cell of a bucket with at least one temperature: the mean, and the emoji of
      a most common code, or the thermometer when there is no code. */
  ghost predicate CellOf(b: Bucket, name: string, cell: PeriodCell)
  {
    |b.temps| > 0 && cell.name == name && cell.temp == MeanTemp(b.temps) &&
    (|b.codes| == 0 ==> cell.emoji == DefaultEmoji) &&
    (|b.codes| > 0 ==> exists c :: MostCommon(c, b.codes) && cell.emoji == WeatherEmoji(Some(c)))
  }

  /** The periods of `periods` that get a cell: those in the table with at least
      one temperature, in the order of `periods`. */
  function Reported(periods: seq<string>, table: map<string, Bucket>): seq<string>
  {
    if |periods| == 0 then []
    else
      var p := periods[|periods| - 1];
      Reported(periods[..|periods| - 1], table) + (if p in table && |table[p].temps| > 0 then [p] else [])
  }

  /** The cells of one day (lines 388-414). */
  method DayCellsOf(table: map<string, Bucket>, periods: seq<string>) returns (cells: seq<PeriodCell>)
    ensures |cells| == |Reported(periods, table)|
    ensures forall k :: 0 <= k < |cells| ==>
      var p := Reported(periods, table)[k]; p in table && CellOf(table[p], p, cells[k])
  {
    cells := [];
    for i := 0 to |periods|
      invariant |cells| == |Reported(periods[..i], table)|
      invariant forall k :: 0 <= k < |cells| ==>
        var p := Reported(periods[..i], table)[k]; p in table && CellOf(table[p], p, cells[k])
    {
      var p := periods[i];
      assert periods[..i + 1][..i] == periods[..i];
      if p in table {
        var info := table[p];
        if |info.temps| > 0 && |info.codes| > 0 {
          var c := PickMostCommon(info.codes);
          cells := cells + [PeriodCell(p, MeanTemp(info.temps), WeatherEmoji(Some(c)))];
        } else if |info.temps| > 0 {
          cells := cells + [PeriodCell(p, MeanTemp(info.temps), DefaultEmoji)];
        }
      }
    }
    assert periods[..|periods|] == periods;
  }

  /** The periods reported are among those asked for. */
  lemma {:induction false} ReportedIn(periods: seq<string>, table: map<string, Bucket>, x: string)
    requires x in Reported(periods, table)
    ensures x in periods
  {
    var n := |periods|;
    if n > 0 && x in Reported(periods[..n - 1], table) {
      ReportedIn(periods[..n - 1], table, x);
      assert periods[..n - 1] <= periods;
    }
  }

  /** Reporting keeps the order of the periods asked for. */
  lemma {:induction false} ReportedSorted(periods: seq<string>, table: map<string, Bucket>)
    requires LexSorted(periods)
    ensures LexSorted(Reported(periods, table))
  {
    var n := |periods|;
    if n > 0 {
      var front := periods[..n - 1];
      ReportedSorted(front, table);
      var r := Reported(periods, table);
      var rf := Reported(front, table);
      forall i, j | 0 <= i < j < |r|
        ensures LexLess(r[i], r[j])
      {
        if j >= |rf| {
          assert r[i] == rf[i] && r[j] == periods[n - 1];
          ReportedIn(front, table, rf[i]);
          var k :| 0 <= k < n - 1 && front[k] == rf[i];
          assert periods[k] == rf[i];
        } else {
          assert r[i] == rf[i] && r[j] == rf[j];
        }
      }
    }
  }

  /** The names of a day's cells, the keys of `periods_data`. */
  function Names(cells: seq<PeriodCell>): (r: seq<string>)
    ensures |r| == |cells|
  {
    seq(|cells|, k requires 0 <= k < |cells| => cells[k].name)
  }

  /** A day gets a widget when at least one of its periods has a temperature. */
  predicate DayReported(daily: map<int, map<string, Bucket>>, d: int, currentHour: Hour)
  {
    d in daily && |Reported(DayPeriods(d, currentHour), daily[d])| > 0
  }

  /** Only today and the next two days get a table, so the loop over days sees no
      other day. */
  lemma {:induction false} WindowDaysInWindow(es: seq<Entry>, d: int)
    requires d in WindowDays(es)
    ensures 0 <= d <= 2
  {
    if |es| > 0 && d in WindowDays(es[..|es| - 1]) {
      WindowDaysInWindow(es[..|es| - 1], d);
    }
  }

  /** A day's widget as built: a day with a table, and cells for exactly the
      reported periods of that day, in Python's string order, each showing its
      period's mean temperature and emoji. */
  ghost predicate WellBuilt(daily: map<int, map<string, Bucket>>, dc: DayCells, currentHour: Hour)
  {
    DayReported(daily, dc.day, currentHour) &&
    Names(dc.cells) == Reported(DayPeriods(dc.day, currentHour), daily[dc.day]) &&
    LexSorted(Names(dc.cells)) &&
    forall k :: 0 <= k < |dc.cells| ==>
      dc.cells[k].name in daily[dc.day] && CellOf(daily[dc.day][dc.cells[k].name], dc.cells[k].name, dc.cells[k])
  }

  /** The body of the loop over days for day `d`: its widget, if it has data. */
  method BuildDay(daily: map<int, map<string, Bucket>>, d: int, currentHour: Hour) returns (r: Option<DayCells>)
    ensures r.Some? <==> DayReported(daily, d, currentHour)
    ensures r.Some? ==> r.value.day == d && WellBuilt(daily, r.value, currentHour)
  {
    if d !in daily {
      return None;
    }
    RegularSorted();
    TodayPeriodsShape(currentHour);
    var periods := if d == 0 then TodayPeriods(currentHour) else Regular;
    var cells := DayCellsOf(daily[d], periods);
    assert Names(cells) == Reported(periods, daily[d]);
    ReportedSorted(periods, daily[d]);
    if |cells| > 0 {
      r := Some(DayCells(d, cells));
    } else {
      r := None;
    }
  }

  /** The loop over `sorted(daily_data.keys())` (lines 380-418): one entry per day
      with at least one reported period, in ascending date order. Within a day the
      cells follow the day's periods, which are in Python's string order, so
      `sorted(periods_data.keys())` (line 112) renders them in that same order. */
  method BuildForecast(daily: map<int, map<string, Bucket>>, currentHour: Hour) returns (days: seq<DayCells>)
    requires forall d :: d in daily ==> 0 <= d <= 2
    ensures forall i, j :: 0 <= i < j < |days| ==> days[i].day < days[j].day
    ensures forall i :: 0 <= i < |days| ==> WellBuilt(daily, days[i], currentHour)
    ensures forall d :: DayReported(daily, d, currentHour) ==> exists i :: 0 <= i < |days| && days[i].day == d
  {
    days := [];
    for d := 0 to 3
      invariant forall i, j :: 0 <= i < j < |days| ==> days[i].day < days[j].day
      invariant forall i :: 0 <= i < |days| ==> days[i].day < d && WellBuilt(daily, days[i], currentHour)
      invariant forall x :: x < d && DayReported(daily, x, currentHour) ==> exists i :: 0 <= i < |days| && days[i].day == x
    {
      ghost var prev := days;
      var r := BuildDay(daily, d, currentHour);
      if r.Some? {
        days := days + [r.value];
      }
      forall x | x < d + 1 && DayReported(daily, x, currentHour)
        ensures exists i :: 0 <= i < |days| && days[i].day == x
      {
        if x < d {
          var i :| 0 <= i < |prev| && prev[i].day == x;
          assert days[i] == prev[i];
        } else {
          assert days[|days| - 1].day == x;
        }
      }
    }
  }
}
