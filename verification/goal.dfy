/** Goals: validated construction, the surplus/deficit verdict, the date
    window of each timeframe and the walk over past months that a monthly
    goal's history covers. */
module Goals {
  import opened Wrappers
  import opened Dates
  import opened Activities

  datatype Metric = Count | Distance | Duration

  /** The goal subclasses `MonthGoal`, `YearGoal` and `CumulativeGoal` */
  datatype Timeframe = Month | Year | Cumulative

  /** `Goal.GOAL_METRICS` */
  const MetricNames: seq<string> := ["count", "distance", "duration"]

  /** `Goal.GOAL_TIMEFRAMES` */
  const TimeframeNames: seq<string> := ["month", "year", "cumulative"]

  function MetricName(m: Metric): string {
    match m
    case Count => "count"
    case Distance => "distance"
    case Duration => "duration"
  }

  function MetricNamed(s: string): (r: Option<Metric>)
    ensures r.Some? <==> s in MetricNames
    ensures r.Some? ==> MetricName(r.value) == s
  {
    if s == "count" then Some(Count)
    else if s == "distance" then Some(Distance)
    else if s == "duration" then Some(Duration)
    else None
  }

  function TimeframeName(t: Timeframe): string {
    match t
    case Month => "month"
    case Year => "year"
    case Cumulative => "cumulative"
  }

  function TimeframeNamed(s: string): (r: Option<Timeframe>)
    ensures r.Some? <==> s in TimeframeNames
    ensures r.Some? ==> TimeframeName(r.value) == s
  {
    if s == "month" then Some(Month)
    else if s == "year" then Some(Year)
    else if s == "cumulative" then Some(Cumulative)
    else None
  }

  /** The metric and timeframe name tables and their lookups are inverse */
  lemma NamesRoundTrip(m: Metric, t: Timeframe)
    ensures MetricNamed(MetricName(m)) == Some(m) && MetricName(m) in MetricNames
    ensures TimeframeNamed(TimeframeName(t)) == Some(t) && TimeframeName(t) in TimeframeNames
  {
  }

  datatype Goal = Goal(variant: Variant, metric: Metric, timeframe: Timeframe, target: int)

  /** The key a goal is stored under within its variant: `(metric, timeframe)` */
  datatype GoalKey = GoalKey(metric: Metric, timeframe: Timeframe)

  function KeyOf(g: Goal): GoalKey {
    GoalKey(g.metric, g.timeframe)
  }

  /** What every constructed goal satisfies: a positive target, and a
      distance metric only for variants that record distance */
  predicate ValidGoal(g: Goal) {
    g.target > 0 && (g.metric == Distance ==> HasDistance(g.variant))
  }

  /** `Goal.__init__` for the subclass of `timeframe`: the metric must be
      known, `distance` is refused for Tennis and Workout, and the target
      must be positive, checked in that order */
  function MakeGoal(variant: Variant, timeframe: Timeframe, metric: string, target: int): (r: Result<Goal>)
    ensures r.Success? <==> && metric in MetricNames
                            && !(metric == "distance" && (variant == Tennis || variant == Workout))
                            && target > 0
    ensures r.Success? ==> && ValidGoal(r.value)
                           && r.value.variant == variant && r.value.timeframe == timeframe
                           && MetricName(r.value.metric) == metric && r.value.target == target
  {
    match MetricNamed(metric)
    case None => Failure(ValueError("metric"))
    case Some(m) =>
      if m == Distance && Name(variant) in ["Tennis", "Workout"] then Failure(ValueError("metric"))
      else if target <= 0 then Failure(ValueError("target"))
      else Success(Goal(variant, m, timeframe, target))
  }

  /** The outcome a report states for one period */
  datatype Verdict = Achieved(surplus: real) | Deficit(shortfall: real)

  /** `current >= target`: achieved with surplus `current - target`, else a
      deficit of `target - current` */
  function Judge(current: real, target: int): (v: Verdict)
    ensures v.Achieved? <==> current >= target as real
    ensures v.Achieved? ==> v.surplus >= 0.0 && current == target as real + v.surplus
    ensures v.Deficit? ==> v.shortfall > 0.0 && current == target as real - v.shortfall
  {
    if current >= target as real then Achieved(current - target as real)
    else Deficit(target as real - current)
  }

  /** The verdict is the only one consistent with the numbers it reports */
  lemma JudgeDeterminedByAmount(current: real, target: int, v: Verdict)
    requires v.Achieved? ==> v.surplus >= 0.0 && current == target as real + v.surplus
    requires v.Deficit? ==> v.shortfall > 0.0 && current == target as real - v.shortfall
    ensures v == Judge(current, target)
  {
  }

  /** A calendar month */
  datatype YearMonth = YearMonth(year: int, month: int)

  predicate ValidMonth(ym: YearMonth) {
    1 <= ym.month <= 12
  }

  /** Months counted from January of year 0, so that consecutive months
      have consecutive indices */
  function MonthIndex(ym: YearMonth): int {
    12 * ym.year + ym.month - 1
  }

  /** `month += 1`, rolling month 13 over to January of the next year */
  function NextMonth(ym: YearMonth): (r: YearMonth)
    requires ValidMonth(ym)
    ensures ValidMonth(r) && MonthIndex(r) == MonthIndex(ym) + 1
  {
    if ym.month + 1 == 13 then YearMonth(ym.year + 1, 1) else YearMonth(ym.year, ym.month + 1)
  }

  function MonthOf(d: Date): YearMonth {
    YearMonth(d.year, d.month)
  }

  /** The window of a monthly report: first to last day of the month */
  function MonthWindow(ym: YearMonth): (w: (Date, Date))
    requires ValidMonth(ym)
    ensures 1 <= ym.year <= 9999 ==> ValidDate(w.0) && ValidDate(w.1)
    ensures forall d | ValidDate(d) :: InWindow(d, w.0, w.1) <==> MonthOf(d) == ym
  {
    (Date(ym.year, ym.month, 1), Date(ym.year, ym.month, DaysInMonth(ym.year, ym.month)))
  }

  /** The window of a yearly report: January 1 to December 31 */
  function YearWindow(year: int): (w: (Date, Date))
    ensures 1 <= year <= 9999 ==> ValidDate(w.0) && ValidDate(w.1)
    ensures forall d | ValidDate(d) :: InWindow(d, w.0, w.1) <==> d.year == year
  {
    (Date(year, 1, 1), Date(year, 12, 31))
  }

  /** A real date lies in a month's window exactly when it is in that month */
  lemma MonthWindowIsMonth(ym: YearMonth, d: Date)
    requires ValidMonth(ym) && ValidDate(d)
    ensures InWindow(d, MonthWindow(ym).0, MonthWindow(ym).1) <==> MonthOf(d) == ym
  {
  }

  /** A real date lies in a year's window exactly when it is in that year */
  lemma YearWindowIsYear(year: int, d: Date)
    requires ValidDate(d)
    ensures InWindow(d, YearWindow(year).0, YearWindow(year).1) <==> d.year == year
  {
  }

  /** The window a goal's current-period report tallies over on `today`:
      all of history (from the tally's default start to today), the
      current year, or the current month */
  function CurrentWindow(timeframe: Timeframe, today: Date): (w: (Date, Date))
    requires ValidDate(today)
    ensures ValidDate(w.0) && ValidDate(w.1)
    ensures timeframe != Cumulative ==> InWindow(today, w.0, w.1)
    ensures timeframe == Cumulative ==> w == (Epoch, today)
    ensures timeframe == Year ==> forall d | ValidDate(d) :: InWindow(d, w.0, w.1) <==> d.year == today.year
    ensures timeframe == Month ==> forall d | ValidDate(d) :: InWindow(d, w.0, w.1) <==> MonthOf(d) == MonthOf(today)
  {
    match timeframe
    case Cumulative => (Epoch, today)
    case Year => YearWindow(today.year)
    case Month => MonthWindow(MonthOf(today))
  }

  /** The month-history loop of `MonthGoal.report` as written: starting at
      (year, month), it runs while `year < now.year or month < now.month`,
      recording each month it visits.  The test is not a chronological
      comparison, but with month and now.month in 1..12 the loop always
      stops: it never rolls over once `year >= now.year`. */
  function MonthsFrom(start: YearMonth, now: YearMonth): (walk: seq<YearMonth>)
    requires ValidMonth(start) && ValidMonth(now)
    ensures forall i | 0 <= i < |walk| :: ValidMonth(walk[i])
    decreases (if start.year < now.year then now.year - start.year else 0), 12 - start.month
  {
    if start.year < now.year || start.month < now.month then
      [start] + MonthsFrom(NextMonth(start), now)
    else []
  }

  /** From a month not after `now`, the walk visits every month from the
      start up to (and excluding) `now`, one after the other */
  lemma {:induction false} MonthsFromCounts(start: YearMonth, now: YearMonth)
    requires ValidMonth(start) && ValidMonth(now)
    requires MonthIndex(start) <= MonthIndex(now)
    ensures |MonthsFrom(start, now)| == MonthIndex(now) - MonthIndex(start)
    ensures forall i | 0 <= i < |MonthsFrom(start, now)| :: MonthIndex(MonthsFrom(start, now)[i]) == MonthIndex(start) + i
    decreases MonthIndex(now) - MonthIndex(start)
  {
    var walk := MonthsFrom(start, now);
    if MonthIndex(start) < MonthIndex(now) {
      assert start.year < now.year || start.month < now.month;
      MonthsFromCounts(NextMonth(start), now);
      assert walk == [start] + MonthsFrom(NextMonth(start), now);
    } else {
      assert start == now;
    }
  }

  /** The months a monthly goal's history covers as the source computes them:
      the walk from the earliest activity's month, guarded by the same test
      as the loop */
  function HistoryMonthsAsWritten(earliest: YearMonth, now: YearMonth): (walk: seq<YearMonth>)
    requires ValidMonth(earliest) && ValidMonth(now)
    ensures forall i | 0 <= i < |walk| :: ValidMonth(walk[i])
    ensures MonthIndex(earliest) <= MonthIndex(now) ==> |walk| == MonthIndex(now) - MonthIndex(earliest)
    ensures earliest.year > now.year ==>
              && |walk| == (if earliest.month < now.month then now.month - earliest.month else 0)
              && forall i | 0 <= i < |walk| :: walk[i] == YearMonth(earliest.year, earliest.month + i)
  {
    if earliest.year < now.year || earliest.month < now.month then
      if MonthIndex(earliest) <= MonthIndex(now) then
        MonthsFromCounts(earliest, now);
        MonthsFrom(earliest, now)
      else
        MonthsFromLaterYear(earliest, now);
        MonthsFrom(earliest, now)
    else []
  }

  /** From a later year the walk never rolls over: it climbs through the
      months of that year until it reaches `now`'s month number */
  lemma {:induction false} MonthsFromLaterYear(start: YearMonth, now: YearMonth)
    requires ValidMonth(start) && ValidMonth(now) && start.year >= now.year
    ensures var walk := MonthsFrom(start, now);
            && |walk| == (if start.month < now.month then now.month - start.month else 0)
            && forall i | 0 <= i < |walk| :: walk[i] == YearMonth(start.year, start.month + i)
    decreases 12 - start.month
  {
    if start.month < now.month {
      MonthsFromLaterYear(NextMonth(start), now);
      var walk := MonthsFrom(start, now);
      assert walk == [start] + MonthsFrom(NextMonth(start), now);
      assert forall i | 1 <= i < |walk| :: walk[i] == MonthsFrom(NextMonth(start), now)[i - 1];
    }
  }

  /** With an earliest activity in a later year but an earlier month than
      today, the history as written reports months that have not happened */
  lemma HistoryAsWrittenReachesFuture()
    ensures var walk := HistoryMonthsAsWritten(YearMonth(2027, 3), YearMonth(2026, 10));
            |walk| == 7 && walk[0] == YearMonth(2027, 3)
            && MonthIndex(walk[0]) > MonthIndex(YearMonth(2026, 10))
  {
    var walk := MonthsFrom(YearMonth(2027, 3), YearMonth(2026, 10));
    assert walk == [YearMonth(2027, 3), YearMonth(2027, 4), YearMonth(2027, 5), YearMonth(2027, 6),
                    YearMonth(2027, 7), YearMonth(2027, 8), YearMonth(2027, 9)];
  }

  /** The months of a monthly goal's history: every completed month from
      the earliest activity's month up to the current one, compared
      chronologically */
  function HistoryMonths(earliest: YearMonth, now: YearMonth): (walk: seq<YearMonth>)
    requires ValidMonth(earliest) && ValidMonth(now)
    ensures MonthIndex(earliest) < MonthIndex(now) ==> |walk| == MonthIndex(now) - MonthIndex(earliest)
    ensures MonthIndex(earliest) >= MonthIndex(now) ==> walk == []
    ensures forall i | 0 <= i < |walk| :: ValidMonth(walk[i]) && MonthIndex(walk[i]) == MonthIndex(earliest) + i
    ensures forall i | 0 <= i < |walk| :: MonthIndex(walk[i]) < MonthIndex(now)
  {
    if MonthIndex(earliest) < MonthIndex(now) then
      MonthsFromCounts(earliest, now);
      MonthsFrom(earliest, now)
    else []
  }

  /** Whenever the earliest month is not after today's, the source's walk
      and the chronological one agree */
  lemma HistoryMonthsAgreeInThePast(earliest: YearMonth, now: YearMonth)
    requires ValidMonth(earliest) && ValidMonth(now)
    requires MonthIndex(earliest) <= MonthIndex(now)
    ensures HistoryMonthsAsWritten(earliest, now) == HistoryMonths(earliest, now)
  {
  }
}
