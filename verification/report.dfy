/** Goal reports: the figure a goal's report states for the current period
    and, for a monthly goal, for each earlier month since the variant's
    earliest activity, each with its verdict against the target. */
module Reports {
  import opened Wrappers
  import opened Digits
  import opened Dates
  import Helpers
  import opened Activities
  import opened Goals
  import opened Athletes

  /** One period's figure and its verdict */
  datatype Line = Line(value: real, verdict: Verdict)

  /** One earlier month of a monthly goal's history */
  datatype HistoryLine = HistoryLine(month: YearMonth, line: Line)

  /** What a report states: the current period, then the history lines in
      the order they are printed (most recent month first) */
  datatype Report = Report(current: Line, history: seq<HistoryLine>)

  function LineFor(value: real, target: int): Line {
    Line(value, Judge(value, target))
  }

  /** `tally[self.metric]` as the report uses it.  A count or distance is a
      number (a missing `distance` key counts as 0); a duration is a
      `timedelta`, which the report's `:,` format and its comparison with
      the integer target both reject with `TypeError`. */
  function MetricValueAsWritten(t: Tally, m: Metric): (r: Result<real>)
    ensures r.Failure? <==> m == Duration
    ensures r.Failure? ==> r.error.TypeError?
    ensures r.Success? ==> r.value == MetricValue(t, m)
  {
    match m
    case Count => Success(t.count as real)
    case Distance => Success(t.distance.GetOr(0.0))
    case Duration => Failure(TypeError("timedelta"))
  }

  /** The figure a report is evidently meant to state: the number of
      activities, the miles, or the hours (the unit the goal's description
      names for a duration goal) */
  function MetricValue(t: Tally, m: Metric): (r: real)
    ensures m == Count ==> r == t.count as real
    ensures m == Distance && t.distance.Some? ==> r == t.distance.value
    ensures m == Duration ==> r * 3600.0 == t.duration as real
  {
    match m
    case Count => t.count as real
    case Distance => t.distance.GetOr(0.0)
    case Duration => t.duration as real / 3600.0
  }

  /** The text window a current-period report passes to `Activity.tally`:
      none for a cumulative goal (the tally's own defaults), otherwise the
      first and last day of the current year or month as `YYYY-MM-DD` */
  function CurrentWindowText(tf: Timeframe, today: Date): (w: (Option<string>, Option<string>))
    requires ValidDate(today)
    ensures w.0.None? <==> tf == Cumulative
    ensures w.1.None? <==> tf == Cumulative
    ensures tf != Cumulative ==> && Helpers.ParseDate(w.0.value) == Some(CurrentWindow(tf, today).0)
                                 && Helpers.ParseDate(w.1.value) == Some(CurrentWindow(tf, today).1)
  {
    match tf
    case Cumulative => (None, None)
    case _ =>
      var d := CurrentWindow(tf, today);
      Helpers.ParseIsoDate(d.0);
      Helpers.ParseIsoDate(d.1);
      (Some(Helpers.IsoDate(d.0)), Some(Helpers.IsoDate(d.1)))
  }

  /** `f"{n}"` for an integer */
  function IntText(n: int): string {
    if n < 0 then "-" + DecimalString(-n) else DecimalString(n)
  }

  /** The text window of one history month, `f"{y}-{m}-01"` and
      `f"{y}-{m}-{last_day}"`: neither year nor month is padded */
  function HistoryWindowText(ym: YearMonth): (w: (string, string))
    requires ValidMonth(ym)
    ensures 1000 <= ym.year <= 9999 ==> && Helpers.ParseDate(w.0) == Some(MonthWindow(ym).0)
                                        && Helpers.ParseDate(w.1) == Some(MonthWindow(ym).1)
    ensures 0 <= ym.year < 1000 ==> Helpers.ParseDate(w.0).None?
  {
    var prefix := MonthPrefix(ym);
    if 1000 <= ym.year <= 9999 then
      HistoryWindowTextParses(ym);
      (prefix + "01", prefix + IntText(DaysInMonth(ym.year, ym.month)))
    else if 0 <= ym.year < 1000 then
      HistoryWindowTextFailsEarly(ym);
      (prefix + "01", prefix + IntText(DaysInMonth(ym.year, ym.month)))
    else (prefix + "01", prefix + IntText(DaysInMonth(ym.year, ym.month)))
  }

  /** `f"{y}-{m}-"` */
  function MonthPrefix(ym: YearMonth): string {
    IntText(ym.year) + "-" + IntText(ym.month) + "-"
  }

  /** For a four-digit year the history window text parses back to the
      month's first and last day */
  lemma HistoryWindowTextParses(ym: YearMonth)
    requires ValidMonth(ym) && 1000 <= ym.year <= 9999
    ensures Helpers.ParseDate(MonthPrefix(ym) + "01") == Some(MonthWindow(ym).0)
    ensures Helpers.ParseDate(MonthPrefix(ym) + IntText(DaysInMonth(ym.year, ym.month))) == Some(MonthWindow(ym).1)
  {
    var ys, ms := DecimalString(ym.year), DecimalString(ym.month);
    var last := DaysInMonth(ym.year, ym.month);
    assert Pow10(1) == 10 && Pow10(2) == 100 && Pow10(3) == 1000 && Pow10(4) == 10000;
    DigitCount(ym.year, 4);
    ValueOfDecimalString(ym.year);
    if ym.month >= 10 { DigitCount(ym.month, 2); }
    ValueOfDecimalString(ym.month);
    DigitCount(last, 2);
    ValueOfDecimalString(last);
    assert ValueOf("01") == 1 by {
      assert "01"[..1] == "0";
      assert "0"[..0] == "";
    }
    Helpers.ParseDateFields(ys, ms, "01");
    Helpers.ParseDateFields(ys, ms, DecimalString(last));
  }

  /** Before the year 1000 the unpadded year leaves a dash among the first
      four characters, so `parse_date` refuses the history window */
  lemma HistoryWindowTextFailsEarly(ym: YearMonth)
    requires ValidMonth(ym) && 0 <= ym.year < 1000
    ensures Helpers.ParseDate(MonthPrefix(ym) + "01").None?
  {
    var ys := DecimalString(ym.year);
    assert Pow10(3) == 1000;
    LengthBound(ym.year, 3);
    var s := MonthPrefix(ym) + "01";
    assert s[|ys|] == '-';
    assert !AllDigits(s[..4]);
  }

  /** The history lines of `MonthGoal.report` as written, in the order the
      loop computes them (oldest first), each tallied through its text
      window; the first failing tally or metric ends the report */
  function HistoryAsWritten(ath: Athlete, g: Goal, months: seq<YearMonth>, today: Date): (r: Result<seq<HistoryLine>>)
    requires Shaped(ath) && forall i | 0 <= i < |months| :: ValidMonth(months[i])
    ensures r.Success? ==> |r.value| == |months|
    ensures r.Success? ==> forall i | 0 <= i < |months| :: r.value[i].month == months[i]
  {
    if months == [] then Success([])
    else
      var w := HistoryWindowText(months[0]);
      var t :- TallyOfClass(ath, Name(g.variant), Some(w.0), Some(w.1), today);
      var value :- MetricValueAsWritten(t, g.metric);
      var rest :- HistoryAsWritten(ath, g, months[1..], today);
      Success([HistoryLine(months[0], LineFor(value, g.target))] + rest)
  }

  /** One month's history line, tallied over that month */
  function MonthLine(ath: Athlete, g: Goal, ym: YearMonth): HistoryLine
    requires Shaped(ath) && ValidMonth(ym)
  {
    var w := MonthWindow(ym);
    HistoryLine(ym, LineFor(MetricValue(TallyWindow(ath, g.variant, w.0, w.1), g.metric), g.target))
  }

  /** The history lines of the given months, oldest first */
  function History(ath: Athlete, g: Goal, months: seq<YearMonth>): (lines: seq<HistoryLine>)
    requires Shaped(ath) && forall i | 0 <= i < |months| :: ValidMonth(months[i])
    ensures |lines| == |months|
    ensures forall i | 0 <= i < |months| :: lines[i].month == months[i]
  {
    seq(|months|, i requires 0 <= i < |months| => MonthLine(ath, g, months[i]))
  }

  /** Popping the line stack prints the lines in reverse */
  function Reverse<T>(s: seq<T>): (r: seq<T>)
    ensures |r| == |s|
    ensures forall i | 0 <= i < |s| :: r[i] == s[|s| - 1 - i]
  {
    seq(|s|, i requires 0 <= i < |s| => s[|s| - 1 - i])
  }

  /** `report(athlete)` of the goal's timeframe class as written, with
      `now` for `datetime.now()` */
  function GoalReportAsWritten(ath: Athlete, g: Goal, now: DateTime): (r: Result<Report>)
    requires Shaped(ath) && ValidDateTime(now)
    ensures r.Success? ==> g.metric != Duration
    ensures r.Success? && g.timeframe != Month ==> r.value.history == []
  {
    var today := now.date;
    var name := Name(g.variant);
    var w := CurrentWindowText(g.timeframe, today);
    var t :- TallyOfClass(ath, name, w.0, w.1, today);
    var current :- MetricValueAsWritten(t, g.metric);
    var line := LineFor(current, g.target);
    if g.timeframe != Month then Success(Report(line, []))
    else
      VariantNamesRoundTrip(g.variant);
      match EarliestActivity(ath, name).value
      case None => Success(Report(line, []))
      case Some(first) =>
        var months := HistoryMonthsAsWritten(MonthOf(first.date), MonthOf(today));
        var lines :- HistoryAsWritten(ath, g, months, today);
        Success(Report(line, Reverse(lines)))
  }

  /** The report as it is evidently meant to be: a duration goal states
      hours, and the history covers the months from the earliest activity's
      month up to, and excluding, the current month, compared
      chronologically; the windows are passed as dates */
  function GoalReport(ath: Athlete, g: Goal, now: DateTime): (rep: Report)
    requires Shaped(ath) && ValidDateTime(now)
    ensures g.timeframe != Month ==> rep.history == []
    ensures forall i | 0 <= i < |rep.history| ::
              ValidMonth(rep.history[i].month)
              && MonthIndex(rep.history[i].month) == MonthIndex(MonthOf(now.date)) - 1 - i
  {
    var today := now.date;
    var w := CurrentWindow(g.timeframe, today);
    var line := LineFor(MetricValue(TallyWindow(ath, g.variant, w.0, w.1), g.metric), g.target);
    if g.timeframe != Month then Report(line, [])
    else
      VariantNamesRoundTrip(g.variant);
      match EarliestActivity(ath, Name(g.variant)).value
      case None => Report(line, [])
      case Some(first) =>
        var months := HistoryMonths(MonthOf(first.date), MonthOf(today));
        Report(line, Reverse(History(ath, g, months)))
  }

  /** The current-period text window names exactly the window of the
      goal's timeframe, so the tally through text is the tally over it */
  lemma CurrentTallyText(ath: Athlete, v: Variant, tf: Timeframe, today: Date)
    requires Shaped(ath) && ValidDate(today)
    ensures var w := CurrentWindowText(tf, today);
            var d := CurrentWindow(tf, today);
            TallyOfClass(ath, Name(v), w.0, w.1, today) == Success(TallyWindow(ath, v, d.0, d.1))
  {
    VariantNamesRoundTrip(v);
    if tf != Cumulative {
      var d := CurrentWindow(tf, today);
      Helpers.ParseIsoDate(d.0);
      Helpers.ParseIsoDate(d.1);
    }
  }

  /** A duration goal's report, as written, always raises `TypeError` */
  lemma DurationReportRaises(ath: Athlete, g: Goal, now: DateTime)
    requires Shaped(ath) && ValidDateTime(now) && g.metric == Duration
    ensures GoalReportAsWritten(ath, g, now).Failure?
    ensures GoalReportAsWritten(ath, g, now).error.TypeError?
  {
    CurrentTallyText(ath, g.variant, g.timeframe, now.date);
  }

  /** The corrected report states a duration goal's figure in hours */
  lemma DurationReportInHours(ath: Athlete, g: Goal, now: DateTime)
    requires Shaped(ath) && ValidDateTime(now) && g.metric == Duration
    ensures var w := CurrentWindow(g.timeframe, now.date);
            GoalReport(ath, g, now).current.value * 3600.0
              == TallyWindow(ath, g.variant, w.0, w.1).duration as real
  {
  }

  /** Month indices order years: a month at or after another is in the
      same or a later year */
  lemma MonthIndexYear(a: YearMonth, b: YearMonth)
    requires ValidMonth(a) && ValidMonth(b) && MonthIndex(a) <= MonthIndex(b)
    ensures a.year <= b.year
  {
  }

  /** Where every history month has a four-digit year and the metric is
      not a duration, the history computed through text windows is the
      history over the months' date windows */
  lemma {:induction false} HistoryAgrees(ath: Athlete, g: Goal, months: seq<YearMonth>, today: Date)
    requires Shaped(ath) && g.metric != Duration
    requires forall i | 0 <= i < |months| :: ValidMonth(months[i]) && 1000 <= months[i].year <= 9999
    ensures HistoryAsWritten(ath, g, months, today) == Success(History(ath, g, months))
  {
    if months != [] {
      MonthTallyText(ath, g, months[0], today);
      HistoryAgrees(ath, g, months[1..], today);
      HistoryCons(ath, g, months);
    }
  }

  /** One month's tally through its text window, as written */
  lemma MonthTallyText(ath: Athlete, g: Goal, ym: YearMonth, today: Date)
    requires Shaped(ath) && g.metric != Duration && ValidMonth(ym) && 1000 <= ym.year <= 9999
    ensures var w := HistoryWindowText(ym);
            var d := MonthWindow(ym);
            var t := TallyWindow(ath, g.variant, d.0, d.1);
            && TallyOfClass(ath, Name(g.variant), Some(w.0), Some(w.1), today) == Success(t)
            && MetricValueAsWritten(t, g.metric) == Success(MetricValue(t, g.metric))
  {
    HistoryWindowTextParses(ym);
    VariantNamesRoundTrip(g.variant);
  }

  /** The history of several months is the first month's line before the
      history of the rest */
  lemma HistoryCons(ath: Athlete, g: Goal, months: seq<YearMonth>)
    requires Shaped(ath) && months != [] && forall i | 0 <= i < |months| :: ValidMonth(months[i])
    ensures History(ath, g, months) == [MonthLine(ath, g, months[0])] + History(ath, g, months[1..])
  {
  }

  /** Outside the two defects (a duration metric, an earliest activity in a
      later month than today) and for four-digit years, the report as
      written and the corrected report agree */
  lemma ReportsAgree(ath: Athlete, g: Goal, now: DateTime)
    requires Shaped(ath) && ValidDateTime(now) && g.metric != Duration
    requires g.timeframe == Month && EarliestActivity(ath, Name(g.variant)).Success?
             && EarliestActivity(ath, Name(g.variant)).value.Some? ==>
               var first := EarliestActivity(ath, Name(g.variant)).value.value;
               first.date.year >= 1000 && MonthIndex(MonthOf(first.date)) <= MonthIndex(MonthOf(now.date))
    ensures GoalReportAsWritten(ath, g, now) == Success(GoalReport(ath, g, now))
  {
    CurrentTallyText(ath, g.variant, g.timeframe, now.date);
    VariantNamesRoundTrip(g.variant);
    if g.timeframe == Month {
      var earliest := EarliestActivity(ath, Name(g.variant)).value;
      if earliest.Some? {
        var e, n := MonthOf(earliest.value.date), MonthOf(now.date);
        HistoryMonthsAgreeInThePast(e, n);
        var months := HistoryMonths(e, n);
        forall i | 0 <= i < |months|
          ensures 1000 <= months[i].year <= 9999
        {
          MonthIndexYear(e, months[i]);
          MonthIndexYear(months[i], n);
        }
        HistoryAgrees(ath, g, months, now.date);
      }
    }
  }

  /** A monthly goal's history has one line per month from the earliest
      activity's month up to the current month, none when the variant has
      no activities or its earliest is not before the current month */
  lemma HistoryLength(ath: Athlete, g: Goal, now: DateTime)
    requires Athletes.WellFormed(ath) && ValidDateTime(now) && g.timeframe == Month
    ensures var store := ath.stores[g.variant];
            var h := GoalReport(ath, g, now).history;
            && (store.entries == map[] ==> h == [])
            && (forall t | t in store.entries && (forall u | u in store.entries :: Le(t, u)) ::
                  |h| == if MonthIndex(MonthOf(t.date)) < MonthIndex(MonthOf(now.date))
                         then MonthIndex(MonthOf(now.date)) - MonthIndex(MonthOf(t.date))
                         else 0)
  {
    VariantNamesRoundTrip(g.variant);
    EarliestActivityIsMinimum(ath, Name(g.variant));
    var store := ath.stores[g.variant];
    forall t | t in store.entries && (forall u | u in store.entries :: Le(t, u))
      ensures EarliestActivity(ath, Name(g.variant)).value == Some(t)
    {
      var e := EarliestActivity(ath, Name(g.variant)).value.value;
      LeTotalOrder(t, e, t);
    }
  }

  /** The activities whose start date falls in the goal's current period:
      all of them up to today, those of the current year, or those of the
      current month */
  predicate InPeriod(d: Date, tf: Timeframe, today: Date) {
    match tf
    case Cumulative => DateLe(Epoch, d) && DateLe(d, today)
    case Year => d.year == today.year
    case Month => MonthOf(d) == MonthOf(today)
  }

  /** A count goal's current figure is the number of the variant's
      activities in the current period */
  lemma CountReportCountsPeriod(ath: Athlete, g: Goal, now: DateTime)
    requires Athletes.WellFormed(ath) && ValidDateTime(now) && g.metric == Count
    ensures var store := ath.stores[g.variant];
            GoalReport(ath, g, now).current.value
              == |set t | t in store.entries && InPeriod(t.date, g.timeframe, now.date)| as real
  {
    var store := ath.stores[g.variant];
    var w := CurrentWindow(g.timeframe, now.date);
    TallyCountsStored(ath, g.variant, w.0, w.1);
    assert StoreOk(g.variant, store) && StartsValid(store);
    forall t | t in store.entries
      ensures InWindow(t.date, w.0, w.1) <==> InPeriod(t.date, g.timeframe, now.date)
    {
      assert ValidDateTime(store.entries[t].start);
      match g.timeframe
      case Cumulative =>
      case Year => YearWindowIsYear(now.date.year, t.date);
      case Month => MonthWindowIsMonth(MonthOf(now.date), t.date);
    }
    assert WindowKeys(store, w.0, w.1)
           == set t | t in store.entries && InPeriod(t.date, g.timeframe, now.date);
  }

  /** One Run on 2023-03-15 of thirty minutes and 300 calories, and a
      cumulative goal of ten runs: the report states one run and a deficit
      of nine, as written and corrected alike */
  lemma OneRunExample(a: Activity, now: DateTime)
    requires a.start == DateTime(Date(2023, 3, 15), 0, 0, 0) && KindOf(a) == Run
    requires a.duration == 1800 && a.calories == Some(300)
    requires ValidDateTime(now) && DateLe(Date(2023, 3, 15), now.date)
    ensures var ath := AddActivity(NewAthlete(), a).value;
            var g := Goal(Run, Count, Cumulative, 10);
            && GoalReport(ath, g, now).current == Line(1.0, Deficit(9.0))
            && GoalReportAsWritten(ath, g, now) == Success(GoalReport(ath, g, now))
  {
    OneRunStore(a);
    OneRunReport(AddActivity(NewAthlete(), a).value, a, now);
  }

  /** The report of a ten-run goal over a store holding just one run */
  lemma OneRunReport(ath: Athlete, a: Activity, now: DateTime)
    requires Athletes.WellFormed(ath) && ath.stores[Run].entries == map[a.start := a]
    requires a.start == DateTime(Date(2023, 3, 15), 0, 0, 0)
    requires ValidDateTime(now) && DateLe(Date(2023, 3, 15), now.date)
    ensures var g := Goal(Run, Count, Cumulative, 10);
            && GoalReport(ath, g, now).current == Line(1.0, Deficit(9.0))
            && GoalReportAsWritten(ath, g, now) == Success(GoalReport(ath, g, now))
  {
    var g := Goal(Run, Count, Cumulative, 10);
    ReportsAgree(ath, g, now);
    CountReportCountsPeriod(ath, g, now);
    OnlyRunInPeriod(ath.stores[Run].entries, a, now.date);
    assert GoalReport(ath, g, now).current.value == 1.0;
  }

  /** Adding one Run to a new athlete stores exactly that run */
  lemma OneRunStore(a: Activity)
    requires ValidDateTime(a.start) && KindOf(a) == Run
    ensures AddActivity(NewAthlete(), a).Success?
    ensures var ath := AddActivity(NewAthlete(), a).value;
            Athletes.WellFormed(ath) && ath.stores[Run].entries == map[a.start := a]
  {
    AddActivityKeepsWellFormed(NewAthlete(), a);
  }

  /** The one stored run lies in the cumulative period */
  lemma OnlyRunInPeriod(entries: map<DateTime, Activity>, a: Activity, today: Date)
    requires entries == map[a.start := a]
    requires DateLe(Epoch, a.start.date) && DateLe(a.start.date, today)
    ensures (set t | t in entries && InPeriod(t.date, Cumulative, today)) == {a.start}
  {
  }
}
