# py_athletics in Dafny

A model of the core of py_athletics, a personal fitness tracker, and
proofs about it. The tracker keeps an athlete's activities, their goals
and the reports on those goals. The model covers:

- **Activities** (`activity.dfy`, module `Activities`). The base class
  `Activity` and its five subclasses Cycle, Run, Tennis, Walk and Workout.
  Construction runs the same checks in the same order as the constructors
  and raises the same exception classes. The class listings are modelled
  too, and so is `Activity.tally`, which counts and sums one class's
  activities over a window of dates.
- **Athlete** (`athlete.dfy`, module `Athletes`). The shape of the
  athlete's nested dictionaries. Adding and listing activities (first
  write wins). Adding, listing and deleting goals (latest write wins).
  `earliest_activity`, and the tally as called with a class name and
  date strings.
- **Goals and reports** (`goal.dfy`, module `Goals`; `report.dfy`, module
  `Reports`). Goal construction and the surplus/deficit verdict. The
  window of each timeframe. The month-by-month history loop of
  `MonthGoal.report`. The figures the three report methods state. Printing
  is replaced by a `Report` value that holds those figures.
- **Helpers** (`helpers.dfy`, module `Helpers`; `garmin_helpers.dfy`,
  module `GarminHelpers`). `td_cvt`, `is_date` and `parse_date`, and the
  three Garmin cell converters with their sentinels and thousands
  separators.
- **Garmin import** (`ingest.dfy`, module `Ingest`).
  `read_garmin_activity_file` applied to rows that are already parsed
  (maps from column header to cell text). It picks the class from the tag,
  converts the always-read cells and the cells some tags gate, constructs
  the activity and adds it.

Supporting modules:

- `Wrappers` has `Option`, `Result` and the exception classes.
- `Dates` has the Gregorian calendar and chronological order.
- `Digits` has decimal numerals.
- `Dicts` has an insertion-ordered dictionary with Python's
  `d[k] = v`, `values()` and `pop`.

A Python exception becomes a `Failure` that names the exception class.
`datetime.now()`/`date.today()` and `datetime.fromisoformat` are
parameters.

Three defects of the source are modelled twice: once as written, and once
corrected. The rest of the model uses the corrected version. See
"## Findings".

Where the code differs from what its documentation leads one to expect, the
model follows the code:

- An optional number given as `0` is accepted and stored as `0`, not made
  absent. Only the tally and the display treat it as missing (Python
  truthiness).
- The constructors do not check the sign of `duration`.
- Adding a base-class `Activity` is not free of side effects. It raises
  and leaves a `None` entry behind (finding 1).
- `add_goal` checks the exercise name, then the timeframe, then the
  metric.
- A monthly goal's history covers every month from the earliest
  activity's month (inclusive) up to the current month (exclusive). That is
  `MonthIndex(now) - MonthIndex(earliest)` lines, one more than "strictly
  between" would give.
- Listings follow insertion order. The unfiltered listing goes class by
  class.
- A tag naming both cycling and running (or walking) has its speed cells
  converted twice: first both as decimals, then both as paces. Such a row
  reads only when both speed cells are empty.

## Model

| member | source | states |
|---|---|---|
| Activities.VariantIndex | py_athletics/src/activity/activity.py:160-163 | every subclass appears in the subclass tuple, at the returned position |
| Activities.VariantNamed | py_athletics/src/activity/activity.py:170-173 | the name-to-class dictionary knows exactly the five subclass names, and maps each to the class of that name |
| Activities.VariantNamesRoundTrip | py_athletics/src/activity/activity.py:165-173 | each subclass's name is in `subclass_names()` and looks the subclass up again |
| Activities.Construct | py_athletics/src/activity/activity.py:18-89 | a constructor succeeds exactly when the start is a valid date-time and every argument its class reads is absent, zero, positive, in its enumerated set or of the right speed type. It then keeps every argument unchanged and builds a well-formed activity of its own class |
| Activities.BaseChecksFirst | py_athletics/src/activity/activity.py:240-246 | a subclass constructor calls the base initialiser first, so an argument the base class refuses fails with the base class's error whatever the class |
| Activities.CycleSpeedsInMph | py_athletics/src/activity/activity.py:258-266 | a Cycle keeps only absent, zero or positive decimal speeds; a pace as maximum speed raises `TypeError` once the earlier checks pass |
| Activities.RunSpeedsArePaces | py_athletics/src/activity/activity.py:359-363 | a Run keeps only paces or zero speeds; a nonzero decimal maximum speed raises `TypeError` once the earlier checks pass |
| Activities.WalkSpeedsArePaces | py_athletics/src/activity/activity.py:490-494 | a Walk keeps only paces or zero speeds; with a valid maximum speed, a nonzero decimal average speed raises `TypeError` |
| Activities.TennisTypeChecked | py_athletics/src/activity/activity.py:432-446 | after the base checks, a Tennis fails exactly on a non-empty type outside its set, with `ValueError`, and keeps its partner and type |
| Activities.WorkoutTypeChecked | py_athletics/src/activity/activity.py:557-571 | after the base checks, a Workout fails exactly on a non-empty type outside its set, with `ValueError`, and keeps its trainer and type |
| Activities.EmptyTally | py_athletics/src/activity/activity.py:200-203 | the counter starts at count zero and has a distance entry exactly for Cycle, Run and Walk |
| Activities.Contribution | py_athletics/src/activity/activity.py:208-212 | each activity in the window adds exactly one to the count |
| Activities.TallyOf | py_athletics/src/activity/activity.py:200-212 | the tally has a distance exactly for the distance classes, never counts more activities than it is given, and is empty when none lies in the window |
| Activities.TallyCountsWindow | py_athletics/src/activity/activity.py:205-208 | the count is the number of activities whose start date lies in [start, end], both ends included |
| Activities.TallyAppend | py_athletics/src/activity/activity.py:205-212 | tallying two lists one after the other adds their tallies metric by metric |
| Activities.TallyIgnoresOrder | py_athletics/src/activity/activity.py:205-212 | any rearrangement of the same activities gives the same tally |
| Dates.DaysInMonth | py_athletics_temp/src/goal/goal.py:163 | `calendar.monthrange` gives 28 to 31 days, 29 in February exactly in leap years, 30 exactly in April, June, September and November |
| Dates.LeTotalOrder | py_athletics/src/athlete/athlete.py:558-560 | start times are totally ordered, so `min` of the starts is well defined |
| Helpers.TdCvt | py_athletics_temp/src/helpers/helpers.py:21-28 | hours, minutes and seconds add back up to the timedelta's seconds, with minutes and seconds below sixty and whole days counted in the hours |
| Helpers.TdCvtUnique | py_athletics_temp/src/helpers/helpers.py:21-28 | `td_cvt` returns the only such decomposition |
| Helpers.ParseDate | py_athletics_temp/src/helpers/helpers.py:45-53 | whatever `parse_date` returns is a real calendar date |
| Helpers.ParseDateFields | py_athletics_temp/src/helpers/helpers.py:52-53 | four year digits, a one- or two-digit month and day, separated by dashes, parse to that date exactly when it exists |
| Helpers.ParseIsoDate | py_athletics_temp/src/helpers/helpers.py:45-53 | every date written as `YYYY-MM-DD` parses back to itself |
| Helpers.IsDateAcceptsIso | py_athletics_temp/src/helpers/helpers.py:31-42 | `is_date` holds of every date written as `YYYY-MM-DD` |
| Helpers.IsDateRefusesCommonLeapDay | py_athletics_temp/src/helpers/helpers.py:37-42 | `is_date("2023-02-29")` is false: the calendar is checked, not just the shape |
| Helpers.IsDateAcceptsLeapDay | py_athletics_temp/src/helpers/helpers.py:37-42 | `is_date("2024-02-29")` is true |
| Helpers.IsDateAcceptsUnpadded | py_athletics_temp/src/helpers/helpers.py:37-42 | month and day need no leading zero |
| GarminHelpers.RemoveCommas | py_athletics/src/helpers/garmin_helpers.py:19-20 | the result has no comma, and text without commas is left unchanged |
| GarminHelpers.ParseInt | py_athletics/src/helpers/garmin_helpers.py:21 | `int()` reads a numeral of ASCII digits as its value |
| GarminHelpers.ParseDecimal | py_athletics/src/helpers/garmin_helpers.py:36 | `Decimal()` reads a numeral of ASCII digits as its value |
| GarminHelpers.GarminToInt | py_athletics/src/helpers/garmin_helpers.py:9-21 | the empty cell, `--` and `0` give `None`; otherwise the cell without commas is read by `int()`, and the call raises exactly when that fails |
| GarminHelpers.GarminToDecimal | py_athletics/src/helpers/garmin_helpers.py:24-36 | the same sentinels give `None`; otherwise the cell without commas is read by `Decimal()`, and the call raises exactly when that fails |
| GarminHelpers.ParseMinutesSeconds | py_athletics/src/helpers/garmin_helpers.py:48 | a `%M:%S` time has hour zero and minutes and seconds below sixty |
| GarminHelpers.GarminToTime | py_athletics/src/helpers/garmin_helpers.py:39-48 | the same sentinels give `None`; otherwise the cell is read as minutes:seconds, and the call raises exactly when that fails |
| GarminHelpers.UngroupedDigits | py_athletics/src/helpers/garmin_helpers.py:19-21 | a number written with thousands separators loses them and leaves its own digits |
| GarminHelpers.GarminToIntReadsCounts | py_athletics/src/helpers/garmin_helpers.py:9-21 | every positive count, written plainly or with separators, reads back as itself |
| GarminHelpers.GarminToDecimalReadsWholeNumbers | py_athletics/src/helpers/garmin_helpers.py:24-36 | every positive whole number, written plainly or with separators, reads back as itself |
| GarminHelpers.GroupedNotSentinel | py_athletics/src/helpers/garmin_helpers.py:17 | a positive number's text is never taken for a sentinel |
| GarminHelpers.GarminToTimeReadsPaces | py_athletics/src/helpers/garmin_helpers.py:39-48 | every pace written `MM:SS` reads back as that time |
| GarminHelpers.SentinelIsExactText | py_athletics/src/helpers/garmin_helpers.py:17 | sentinels are compared as text: `--` is absent but `00` is the number zero |
| GarminHelpers.NegativeCountRead | py_athletics/src/helpers/garmin_helpers.py:21 | a negative count is not refused by the converter: `-12` reads as -12 |
| GarminHelpers.SeparatorDropped | py_athletics/src/helpers/garmin_helpers.py:19-21 | `1,234` reads as 1234 |
| Goals.MetricNamed | py_athletics_temp/src/goal/goal.py:11 | a metric name is recognised exactly when it is in `GOAL_METRICS` |
| Goals.TimeframeNamed | py_athletics_temp/src/goal/goal.py:12 | a timeframe name is recognised exactly when it is in `GOAL_TIMEFRAMES` |
| Goals.NamesRoundTrip | py_athletics_temp/src/goal/goal.py:11-12 | metric and timeframe names and their lookups are inverse |
| Goals.MakeGoal | py_athletics_temp/src/goal/goal.py:28-49 | a goal is built exactly for a known metric, not distance for Tennis or Workout, and a positive target; it keeps all three |
| Goals.Judge | py_athletics_temp/src/goal/goal.py:100-103 | achieved exactly when current reaches the target; the surplus or the deficit is the difference, the deficit strictly positive |
| Goals.JudgeDeterminedByAmount | py_athletics_temp/src/goal/goal.py:100-103 | no other verdict is consistent with the numbers it reports |
| Goals.NextMonth | py_athletics_temp/src/goal/goal.py:221-224 | the month step rolls December over into January of the next year, moving exactly one month on |
| Goals.MonthWindow | py_athletics_temp/src/goal/goal.py:160-164 | the window from the 1st to `monthrange`'s last day holds real dates, and a real date lies in it exactly when it is in that month |
| Goals.YearWindow | py_athletics_temp/src/goal/goal.py:123-127 | the window from January 1 to December 31 holds real dates, and a real date lies in it exactly when it is in that year |
| Goals.CurrentWindow | py_athletics_temp/src/goal/goal.py:92-164 | a cumulative goal's window runs from the tally's default start to today; a yearly or monthly one holds today and exactly the dates of today's year or month |
| Goals.MonthWindowIsMonth | py_athletics_temp/src/goal/goal.py:162-164 | a date lies between the first and the last day of a month exactly when it is in that month |
| Goals.YearWindowIsYear | py_athletics_temp/src/goal/goal.py:125-127 | a date lies between January 1 and December 31 exactly when it is in that year |
| Goals.MonthsFrom | py_athletics_temp/src/goal/goal.py:202-224 | the history loop ends and visits only real months |
| Goals.MonthsFromCounts | py_athletics_temp/src/goal/goal.py:202-224 | from a month not after today, the loop visits each month from it up to today's, excluded, one after another |
| Goals.HistoryMonthsAsWritten | py_athletics_temp/src/goal/goal.py:197-224 | as written, from an earliest month not after today's the history has one line per month up to today's; from a later year it climbs through that year's months up to today's month number, all of them in the future |
| Goals.MonthsFromLaterYear | py_athletics_temp/src/goal/goal.py:202-224 | from a year not before today's the loop never rolls over: it visits that year's months up to today's month number |
| Goals.HistoryAsWrittenReachesFuture | py_athletics_temp/src/goal/goal.py:197-202 | with the earliest activity in March 2027 and today in October 2026, the guard and loop as written report seven months, all in the future |
| Goals.HistoryMonths | py_athletics_temp/src/goal/goal.py:197-224 | the corrected history is every month from the earliest month up to the current one, excluded, in order |
| Goals.HistoryMonthsAgreeInThePast | py_athletics_temp/src/goal/goal.py:197-224 | when the earliest month is not after today's, the loop as written and the corrected history agree |
| Reports.MetricValueAsWritten | py_athletics_temp/src/goal/goal.py:168-175 | a count or distance report states a number; a duration report raises `TypeError` |
| Reports.MetricValue | py_athletics_temp/src/goal/goal.py:64-69 | the corrected figure is the count, the miles, or the duration in hours, the unit a duration goal describes itself in |
| Reports.CurrentWindowText | py_athletics_temp/src/goal/goal.py:93-164 | a cumulative report passes no dates; a yearly or monthly one passes text that `parse_date` reads back as the first and last day of its window |
| Reports.HistoryWindowText | py_athletics_temp/src/goal/goal.py:203-205 | for a four-digit year the unpadded window text parses to the month's first and last day; before the year 1000 the start text does not parse |
| Reports.HistoryWindowTextParses | py_athletics_temp/src/goal/goal.py:203-205 | for four-digit years the unpadded history window text parses to the month's first and last day |
| Reports.HistoryWindowTextFailsEarly | py_athletics_temp/src/goal/goal.py:203-205 | before the year 1000 the unpadded window text does not parse |
| Reports.HistoryAsWritten | py_athletics_temp/src/goal/goal.py:202-219 | one history line per visited month, in visiting order |
| Reports.History | py_athletics_temp/src/goal/goal.py:202-219 | the corrected history has one line per month, in month order |
| Reports.Reverse | py_athletics_temp/src/goal/goal.py:226-227 | popping the stack prints the lines last to first |
| Reports.GoalReportAsWritten | py_athletics_temp/src/goal/goal.py:157-229 | a report as written succeeds only for count and distance goals, and only a monthly goal has a history |
| Reports.GoalReport | py_athletics_temp/src/goal/goal.py:157-229 | only a monthly goal has a history, and its lines run from the month before the current one backwards, one month each |
| Reports.CurrentTallyText | py_athletics_temp/src/goal/goal.py:158-166 | the current-period window text names exactly the timeframe's window |
| Reports.DurationReportRaises | py_athletics_temp/src/goal/goal.py:96-101 | every duration goal's report as written raises `TypeError` |
| Reports.DurationReportInHours | py_athletics_temp/src/goal/goal.py:64-69 | the corrected report states a duration goal's figure as the period's hours |
| Reports.HistoryAgrees | py_athletics_temp/src/goal/goal.py:203-209 | for four-digit years, tallying through the text windows gives the tally over the month windows |
| Reports.MonthTallyText | py_athletics_temp/src/goal/goal.py:203-209 | one month's tally through its text window is the tally over the month |
| Reports.ReportsAgree | py_athletics_temp/src/goal/goal.py:157-229 | apart from duration goals and an earliest activity after the current month, the report as written and the corrected report are equal |
| Reports.HistoryLength | py_athletics_temp/src/goal/goal.py:183-224 | a monthly goal's history has one line per month from the earliest activity's month up to the current month, excluded, and none without activities |
| Reports.CountReportCountsPeriod | py_athletics_temp/src/goal/goal.py:92-97 | a count goal's current figure is the number of the class's activities in the current period |
| Reports.OneRunExample | py_athletics_temp/src/goal/goal.py:92-106 | one Run on 2023-03-15 and a cumulative goal of ten runs report a current figure of 1 and a deficit of 9, as written and corrected |
| Reports.OneRunReport | py_athletics_temp/src/goal/goal.py:92-106 | the same report over any well-formed athlete whose Run store holds only that run |
| Reports.OneRunStore | py_athletics/src/athlete/athlete.py:107-112 | adding one Run to a new athlete stores exactly that run |
| Athletes.NewAthlete | py_athletics/src/athlete/athlete.py:44-52 | a new athlete has an empty activity and goal dictionary for each of the five subclasses and nothing else |
| Athletes.AddActivityAsWritten | py_athletics/src/athlete/athlete.py:95-112 | as written, adding raises exactly for a base-class activity, and then leaves a base-class entry behind; a subclass activity is stored first-write-wins, exactly as the corrected `add_activity` stores it |
| Athletes.AddActivity | py_athletics/src/athlete/athlete.py:107-112 | a subclass activity is stored under its class and start unless that start is taken; the other classes and the goals are unchanged; a base-class activity is refused |
| Athletes.AddActivityKeepsWellFormed | py_athletics/src/athlete/athlete.py:107-112 | adding keeps every activity filed under its own class and start |
| Athletes.GetActivities | py_athletics/src/athlete/athlete.py:114-137 | a filtered listing is that class's activities in insertion order; the base class is refused with `ValueError`; the unfiltered listing fails exactly once a base-class entry exists |
| Athletes.AllActivitiesIsUnion | py_athletics/src/athlete/athlete.py:130-135 | on a well-formed athlete, the unfiltered listing holds exactly the activities of the five filtered ones |
| Athletes.BaseActivityBreaksListing | py_athletics/src/athlete/athlete.py:107-135 | as written, adding a base-class activity raises `TypeError` and every later unfiltered listing raises `AttributeError` |
| Athletes.RefusedActivityChangesNothing | py_athletics/src/athlete/athlete.py:100-101 | corrected, a base-class activity is refused and the unfiltered listing still works |
| Athletes.AddActivityListing | py_athletics/src/athlete/athlete.py:111-112 | a fresh activity is appended to its class's listing; a duplicate start changes nothing |
| Athletes.FirstWriteWins | py_athletics/src/athlete/athlete.py:111-112 | of two activities of one class with the same start, the first one added is kept |
| Dicts.Dict.Put | py_athletics/src/athlete/athlete.py:184-187 | `d[k] = v` keeps the dictionary valid: a new key goes last in iteration order, an existing key keeps its place and takes the new value |
| Dicts.Dict.Pop | py_athletics/src/athlete/athlete.py:239 | `d.pop(k, None)` removes exactly that key and changes nothing when it is absent |
| Dicts.Dict.PutThenPop | py_athletics/src/athlete/athlete.py:187-239 | popping a key just stored as new gives back the dictionary as it was, iteration order included |
| Dicts.WithoutConcat | py_athletics/src/athlete/athlete.py:239 | removing a key from the iteration order works piece by piece, so the other keys keep their order |
| Athletes.GetGoals | py_athletics/src/athlete/athlete.py:189-211 | a filtered listing is that class's goals in insertion order; the base class is refused; unfiltered, it is the union of the five |
| Athletes.AddGoal | py_athletics/src/athlete/athlete.py:139-187 | adding a goal succeeds exactly for a subclass name, known timeframe and metric, no distance for Tennis or Workout, and a positive target. It then stores that goal under (metric, timeframe) and changes nothing else |
| Athletes.AddGoalKeepsWellFormed | py_athletics/src/athlete/athlete.py:182-187 | adding a goal keeps every goal valid and filed under its own class and key |
| Athletes.GoalReplaced | py_athletics/src/athlete/athlete.py:184-187 | a second goal with the same names replaces the first and leaves the other keys as before |
| Athletes.DeleteGoal | py_athletics/src/athlete/athlete.py:213-241 | deleting succeeds exactly for a subclass name; it only removes entries, and touches only that class's goals |
| Athletes.DeleteGoalKeepsWellFormed | py_athletics/src/athlete/athlete.py:233-239 | deleting keeps the athlete well-formed |
| Athletes.DeleteGoalRemoves | py_athletics/src/athlete/athlete.py:239 | a stored goal is gone after deleting it by its names, and every other goal stays |
| Athletes.DeleteUndoesAdd | py_athletics/src/athlete/athlete.py:187-239 | deleting a goal just added under a free key gives back the athlete as it was, goal listing order included |
| Athletes.AddGoalPuts | py_athletics/src/athlete/athlete.py:180-187 | an accepted goal is stored under its (metric, timeframe) key in its class's dictionary, and nothing else changes |
| Athletes.DeleteGoalPops | py_athletics/src/athlete/athlete.py:233-239 | deleting by known metric and timeframe names pops that key from the class's dictionary, and nothing else changes |
| Athletes.AddGoalListing | py_athletics/src/athlete/athlete.py:187-211 | a goal under a new key is listed after the class's earlier goals; under a taken key it replaces its predecessor and the listing keeps its length |
| Athletes.EarliestStart | py_athletics/src/athlete/athlete.py:558-562 | `min` of the starts is one of them and no later than any; `None` exactly for no activities |
| Athletes.EarliestActivity | py_athletics/src/athlete/athlete.py:553-562 | an unknown exercise raises `KeyError`; otherwise the result is `None` or a valid date-time |
| Athletes.EarliestActivityIsMinimum | py_athletics/src/athlete/athlete.py:553-562 | the earliest activity's start is a stored start no later than any other, and is `None` exactly when the class has no activities |
| Athletes.TallyWindow | py_athletics/src/activity/activity.py:205-212 | a class's tally has a distance exactly for the distance classes and counts at most its stored activities |
| Athletes.TallyOfClass | py_athletics/src/activity/activity.py:175-214 | the tally succeeds exactly for a subclass name and well-formed date strings; a bad class name raises `ValueError` |
| Athletes.DateArgument | py_athletics/src/activity/activity.py:188-196 | an omitted date takes its default; a given one must parse |
| Athletes.TallyCountsStored | py_athletics/src/activity/activity.py:205-208 | the count is the number of the class's stored activities whose date lies in the window, both ends included |
| Ingest.Cell | py_athletics/src/athlete/athlete.py:345 | reading a cell succeeds exactly when the column exists, and a missing column raises `KeyError` |
| Ingest.OccursMeans | py_athletics/src/athlete/athlete.py:347 | the substring test holds exactly when the pattern occurs at some position |
| Ingest.ClassifyTag | py_athletics/src/athlete/athlete.py:347-358 | a tag selects Cycle exactly when it contains "Cycling", and the base class exactly when it contains none of the five patterns |
| Ingest.ReadsDistance | py_athletics/src/athlete/athlete.py:396-403 | a tag whose distance is read always selects one of the five subclasses |
| Ingest.ReadsPace | py_athletics/src/athlete/athlete.py:411-416 | a tag whose speeds are read as paces also has its distance read, and selects a subclass |
| Ingest.ReadsCycling | py_athletics/src/athlete/athlete.py:407-426 | a tag whose speeds are read in miles per hour and whose power is read also has its distance read, and selects Cycle |
| Ingest.ClassifyIsFirstMatch | py_athletics/src/athlete/athlete.py:345-358 | the class is that of the first tag pattern, in order, that the tag contains; the base class when none matches |
| Ingest.FirstEight | py_athletics/src/athlete/athlete.py:365 | the slice is the first eight characters, or all of shorter text |
| Ingest.ParseClock | py_athletics/src/athlete/athlete.py:366-371 | a parsed duration is less than a day |
| Ingest.ClockRoundTrip | py_athletics/src/athlete/athlete.py:365-371 | every `HH:MM:SS` clock reads back as its seconds, whatever fraction follows it |
| Ingest.SpeedCells | py_athletics/src/athlete/athlete.py:402-416 | the speed cells read exactly when each converts as a decimal for a cycling tag and as a pace for a running or walking tag; the pace wins, and other tags keep no speed. Both cells go through the decimal conversion, maximum first, before either goes through the pace conversion, so the first failure in that order is the one raised |
| Ingest.DecimalsBeforePaces | py_athletics/src/athlete/athlete.py:407-416 | a "Cycling Running" row with maximum speed `5` and average speed `abc` raises the decimal conversion's `InvalidOperation`, not the pace conversion's `ValueError` |
| Ingest.ReadBasics | py_athletics/src/athlete/athlete.py:345-382 | a row without a tag column raises `KeyError`; the tag read is the row's, the start is a real date-time (`fromisoformat` raises `ValueError` otherwise), and the duration is under a day |
| Ingest.ReadGated | py_athletics/src/athlete/athlete.py:388-426 | a distance only for cycling, running and walking tags, a power only for cycling tags |
| Ingest.ReadRow | py_athletics/src/athlete/athlete.py:345-426 | a read row has the class its tag selects, a real start date-time and a duration under a day |
| Ingest.ReadBasicsFields | py_athletics/src/athlete/athlete.py:362-382 | the common cells read exactly when present and convertible, each to its own conversion |
| Ingest.ReadGatedFields | py_athletics/src/athlete/athlete.py:388-426 | the tag-dependent cells read exactly when present and convertible, each to its own conversion |
| Ingest.ReadRowFields | py_athletics/src/athlete/athlete.py:428-440 | a row reads exactly when readable, and every constructor argument is its cell's conversion, the tag passed on as the Garmin activity type, with no venue, type, partner or trainer |
| Ingest.RowActivity | py_athletics/src/athlete/athlete.py:428-440 | the activity a row builds is well-formed and of its tag's class |
| Ingest.IngestAsWritten | py_athletics/src/athlete/athlete.py:336-442 | as written, reading rows never touches the goals, and a base-class entry once present stays |
| Ingest.Ingest | py_athletics/src/athlete/athlete.py:338-442 | corrected reading never touches the goals and never adds a base-class entry |
| Ingest.IngestConcat | py_athletics/src/athlete/athlete.py:338-442 | reading rows in two batches is reading them at once; the first exception ends the loop with the earlier rows kept |
| Ingest.IngestKeepsWellFormed | py_athletics/src/athlete/athlete.py:338-442 | corrected reading keeps a well-formed athlete well-formed, whatever the rows |
| Ingest.IngestAgrees | py_athletics/src/athlete/athlete.py:338-442 | while no row raises, reading as written and corrected agree |
| Ingest.UnknownTagPoisons | py_athletics/src/athlete/athlete.py:357-358 | as written, a readable row whose tag names no class raises `TypeError` and breaks the unfiltered listing |
| Ingest.IngestStoresRow | py_athletics/src/athlete/athlete.py:428-442 | an accepted row is stored under its tag's class at its start, unless taken, and other classes are untouched |
| Ingest.MixedTagNeedsEmptySpeeds | py_athletics/src/athlete/athlete.py:407-416 | a tag naming cycling and running or walking reads only when its speed cells are sentinels, and then keeps no speed |

## Left out

- Saving and loading the athlete with `pickle` (`save`, `load`): file I/O.
- `__str__`, `__repr__`, `show_activities`, `show_goals`,
  `summarize_activities` and the printed report text: display only. Number
  formatting with `:,` and the text around the figures are not modelled;
  the reports' figures and verdicts are.
- Opening the CSV file and `csv.DictReader`: rows arrive already split
  into maps from header to cell.
- `datetime.fromisoformat` on the Date cell is a parameter
  (`parseStart`), not modelled. A result that is no real date-time is
  read as the `ValueError` `fromisoformat` would raise.
- `datetime.now()` and `date.today()` are parameters.
- The `isinstance` checks that raise `TypeError` for arguments of the
  wrong Python type: the Dafny types rule those arguments out. The Cycle
  and Run/Walk speed type checks are modelled, because a speed may be
  either a decimal or a time.
- A goal built directly on the base `Activity` class, and the base
  `Goal.report`: `add_goal` only builds goals for the five subclasses.
- The `int(target)` conversion in `add_goal`: the target is an integer.
- Unicode digits, surrounding whitespace, underscores, exponents,
  `NaN`/`Infinity` and other forms `int()` and `Decimal()` also accept.
  Only ASCII signs, digits and a decimal point are modelled.
- Helpers.ParseDate: reads ASCII digits only. `strptime`'s `%Y`, `%m`
  and `%d` also accept other Unicode decimal digits, so `is_date` and
  `parse_date` accept dates the model refuses.
- Ingest.ParseClock: reads ASCII digits only, while `strptime`'s
  `%H:%M:%S` also accepts other Unicode decimal digits.
- GarminHelpers.ParseMinutesSeconds: reads ASCII digits only, while
  `strptime`'s `%M:%S` also accepts other Unicode decimal digits.
- Microseconds: durations and start times are whole seconds.
- Decimal's 28-digit rounding when the tally adds distances: sums are
  exact.
- Reports.CurrentWindowText: `strftime("%Y")` of a year below 1000 is
  written here as four padded digits.
- Concurrency: the program is single-threaded.
- Activities.Contribution: its contract states only that each activity
  adds one to the count. The calories, duration and distance it adds
  are given by its definition: absent or zero calories and distance add
  nothing.

## Findings

| source | as written | input that shows it | evidently intended | confidence | as-written member | corrected member |
|---|---|---|---|---|---|---|
| py_athletics/src/athlete/athlete.py:107-112 | looking up the class of a base `Activity` in the outer `defaultdict` inserts `None` for it, then subscripting `None` raises `TypeError`; the `None` entry stays, and every later unfiltered `get_activities` raises `AttributeError` | a Garmin row whose tag contains none of Cycling, Gym, Running, Tennis, Walking | refuse the activity with no change to the athlete | not executed | Athletes.BaseActivityBreaksListing | Athletes.RefusedActivityChangesNothing |
| py_athletics_temp/src/goal/goal.py:197-202 | the history guard and loop test `year < now.year or month < now.month`, which is not a chronological comparison | earliest activity in March 2027 with today in October 2026: seven future months are reported | walk only the months before the current one | not executed | Goals.HistoryAsWrittenReachesFuture | Goals.HistoryMonthsAgreeInThePast |
| py_athletics_temp/src/goal/goal.py:96-101 | a duration tally is a `timedelta`; comparing it with the integer target and formatting it with `:,` raise `TypeError` | any duration goal, such as `add_goal("Run", "duration", "year", 10)`, then its report | report the period's hours, the unit the goal's description names | not executed | Reports.DurationReportRaises | Reports.DurationReportInHours |
