/** Reading a Garmin activity export: each CSV row, given as a map from
    column header to cell text, becomes an activity of the class its
    "Activity Type" tag names, with only the fields that class uses.  The
    file and CSV reading are outside the model; `fromisoformat` on the
    "Date" cell is a parameter. */
module Ingest {
  import opened Wrappers
  import opened Digits
  import opened Dates
  import Helpers
  import opened GarminHelpers
  import opened Activities
  import opened Athletes

  /** One row of the export, as `csv.DictReader` yields it */
  type Row = map<string, string>

  /** The column of normalized power, whose header carries two registered
      signs */
  const PowerKey: string := "Normalized Power\U{AE} (NP\U{AE})"

  /** `row[key]`, `KeyError` when the column is missing */
  function Cell(row: Row, key: string): (r: Result<string>)
    ensures r.Success? <==> key in row
    ensures r.Success? ==> r.value == row[key]
    ensures r.Failure? ==> r.error == KeyError(key)
  {
    if key in row then Success(row[key]) else Failure(KeyError(key))
  }

  // Substring search: Python's `pat in s`.

  predicate OccursAt(s: string, pat: string, i: int) {
    0 <= i && i + |pat| <= |s| && s[i..i + |pat|] == pat
  }

  function Occurs(s: string, pat: string): bool
    decreases |s|
  {
    if |s| < |pat| then false
    else s[..|pat|] == pat || Occurs(s[1..], pat)
  }

  /** The search finds `pat` exactly when it occurs at some position */
  lemma {:induction false} OccursMeans(s: string, pat: string)
    ensures Occurs(s, pat) <==> exists i :: OccursAt(s, pat, i)
    decreases |s|
  {
    if |s| < |pat| {
      if i :| OccursAt(s, pat, i) {
        assert false;
      }
    } else if s[..|pat|] == pat {
      assert OccursAt(s, pat, 0);
    } else {
      assert |s| >= 1;
      OccursMeans(s[1..], pat);
      if Occurs(s[1..], pat) {
        var i :| OccursAt(s[1..], pat, i);
        assert s[1..][i..i + |pat|] == s[i + 1..i + 1 + |pat|];
        assert OccursAt(s, pat, i + 1);
      }
      if i :| OccursAt(s, pat, i) {
        if i > 0 {
          assert s[1..][i - 1..i - 1 + |pat|] == s[i..i + |pat|];
          assert OccursAt(s[1..], pat, i - 1);
        }
      }
    }
  }

  /** The tags that select a class, in the order they are tried */
  const TagPatterns: seq<(string, Variant)> :=
    [("Cycling", Cycle), ("Gym", Workout), ("Running", Run), ("Tennis", Tennis), ("Walking", Walk)]

  /** The class a tag selects */
  function ClassifyTag(tag: string): (k: Kind)
    ensures k == Cycle <==> Occurs(tag, "Cycling")
    ensures k == Base <==> && !Occurs(tag, "Cycling") && !Occurs(tag, "Gym") && !Occurs(tag, "Running")
                           && !Occurs(tag, "Tennis") && !Occurs(tag, "Walking")
  {
    if Occurs(tag, "Cycling") then Cycle
    else if Occurs(tag, "Gym") then Workout
    else if Occurs(tag, "Running") then Run
    else if Occurs(tag, "Tennis") then Tennis
    else if Occurs(tag, "Walking") then Walk
    else Base
  }

  /** The class a tag selects is that of the first pattern, in order, the
      tag contains; the base class when it contains none */
  lemma ClassifyIsFirstMatch(tag: string)
    ensures ClassifyTag(tag) == Base <==> forall j | 0 <= j < |TagPatterns| :: !Occurs(tag, TagPatterns[j].0)
    ensures ClassifyTag(tag) != Base ==>
      exists j | 0 <= j < |TagPatterns| ::
        && TagPatterns[j].1 == ClassifyTag(tag) && Occurs(tag, TagPatterns[j].0)
        && forall i | 0 <= i < j :: !Occurs(tag, TagPatterns[i].0)
  {
    var names := ["Cycling", "Gym", "Running", "Tennis", "Walking"];
    assert forall j | 0 <= j < 5 :: TagPatterns[j].0 == names[j];
    var first := if Occurs(tag, "Cycling") then 0
                 else if Occurs(tag, "Gym") then 1
                 else if Occurs(tag, "Running") then 2
                 else if Occurs(tag, "Tennis") then 3
                 else if Occurs(tag, "Walking") then 4
                 else 5;
    if first < 5 {
      assert TagPatterns[first].1 == ClassifyTag(tag) && Occurs(tag, TagPatterns[first].0);
      assert forall i | 0 <= i < first :: !Occurs(tag, TagPatterns[i].0);
    }
  }

  /** Distance is read for cycling, running and walking tags */
  predicate ReadsDistance(tag: string)
    ensures ReadsDistance(tag) ==> ClassifyTag(tag) != Base
  {
    Occurs(tag, "Cycling") || Occurs(tag, "Running") || Occurs(tag, "Walking")
  }

  /** Speeds are converted as paces for running and walking tags */
  predicate ReadsPace(tag: string)
    ensures ReadsPace(tag) ==> ReadsDistance(tag) && ClassifyTag(tag) != Base
  {
    Occurs(tag, "Running") || Occurs(tag, "Walking")
  }

  /** Speeds as miles per hour, and normalized power, for cycling tags */
  predicate ReadsCycling(tag: string)
    ensures ReadsCycling(tag) ==> ReadsDistance(tag) && ClassifyTag(tag) == Cycle
  {
    Occurs(tag, "Cycling")
  }

  /** Python's `s[0:8]` */
  function FirstEight(s: string): (r: string)
    ensures |r| == if |s| < 8 then |s| else 8
    ensures r == s[..|r|]
  {
    if |s| <= 8 then s else s[..8]
  }

  /** `datetime.strptime(s, "%H:%M:%S")` as a number of seconds: three
      fields of one or two digits, hour below 24, minute and second below
      60, and nothing else; `None` where Python raises `ValueError` */
  function ParseClock(s: string): (r: Option<nat>)
    ensures r.Some? ==> r.value < 86400
  {
    match SplitColon(s)
    case None => None
    case Some(hr) =>
      match SplitColon(hr.1)
      case None => None
      case Some(ms) => ClockValue(hr.0, ms.0, ms.1)
  }

  /** The seconds three clock fields name, when each is in range */
  function ClockValue(hs: string, ms: string, ss: string): (r: Option<nat>)
    ensures r.Some? ==> r.value < 86400
  {
    var h := Helpers.SmallNumber(hs, 0, 23);
    var m := Helpers.SmallNumber(ms, 0, 59);
    var sec := Helpers.SmallNumber(ss, 0, 59);
    if h.Some? && m.Some? && sec.Some? then Some(3600 * h.value + 60 * m.value + sec.value)
    else None
  }

  /** The text before and after the first colon */
  function SplitColon(s: string): (r: Option<(string, string)>)
    ensures r.Some? ==> s == r.value.0 + ":" + r.value.1
    ensures r.Some? ==> forall i | 0 <= i < |r.value.0| :: r.value.0[i] != ':'
    ensures r.None? ==> forall i | 0 <= i < |s| :: s[i] != ':'
  {
    match Helpers.IndexOf(s, ':')
    case None => None
    case Some(i) =>
      assert s == s[..i] + ":" + s[i + 1..];
      Some((s[..i], s[i + 1..]))
  }

  /** Splitting text at a colon after a run of digits gives back both sides */
  lemma SplitJoined(a: string, b: string)
    requires AllDigits(a)
    ensures SplitColon(a + ":" + b) == Some((a, b))
  {
    var t := a + ":" + b;
    assert forall i | 0 <= i < |a| :: t[i] == a[i] && IsDigit(a[i]);
    IndexOfIs(t, ':', |a|);
    assert t[..|a|] == a;
    assert t[|a| + 1..] == b;
  }

  /** `HH:MM:SS` of a clock reading below a day */
  function ClockText(h: nat, m: nat, s: nat): string
    requires h < 24 && m < 60 && s < 60
  {
    Joined(ZeroPadded(h, 2), ZeroPadded(m, 2), ZeroPadded(s, 2))
  }

  /** Three fields separated by colons */
  function Joined(a: string, b: string, c: string): (r: string)
    ensures |r| == |a| + |b| + |c| + 2
  {
    a + ":" + b + ":" + c
  }

  /** Reading a written clock gives back its seconds, and a fractional
      part after the eighth character is ignored */
  lemma ClockRoundTrip(h: nat, m: nat, s: nat, fraction: string)
    requires h < 24 && m < 60 && s < 60
    ensures ParseClock(FirstEight(ClockText(h, m, s) + fraction)) == Some(3600 * h + 60 * m + s)
  {
    ClockTextReads(h, m, s);
    FirstEightOfLonger(ClockText(h, m, s), fraction);
  }

  /** A written clock is eight characters long and reads back as its
      seconds */
  lemma ClockTextReads(h: nat, m: nat, s: nat)
    requires h < 24 && m < 60 && s < 60
    ensures |ClockText(h, m, s)| == 8
    ensures ParseClock(ClockText(h, m, s)) == Some(3600 * h + 60 * m + s)
  {
    TwoDigits(h);
    TwoDigits(m);
    TwoDigits(s);
    ClockFieldsRead(ZeroPadded(h, 2), ZeroPadded(m, 2), ZeroPadded(s, 2), h, m, s);
  }

  /** Two-digit fields within range, joined by colons, read back as their
      clock reading */
  lemma ClockFieldsRead(hs: string, ms: string, ss: string, h: nat, m: nat, s: nat)
    requires |hs| == 2 && |ms| == 2 && |ss| == 2
    requires AllDigits(hs) && AllDigits(ms) && AllDigits(ss)
    requires ValueOf(hs) == h < 24 && ValueOf(ms) == m < 60 && ValueOf(ss) == s < 60
    ensures |Joined(hs, ms, ss)| == 8
    ensures ParseClock(Joined(hs, ms, ss)) == Some(3600 * h + 60 * m + s)
  {
    ClockFields(hs, ms, ss);
    ClockValueIs(hs, ms, ss, h, m, s);
  }

  lemma FirstEightOfLonger(t: string, more: string)
    requires |t| == 8
    ensures FirstEight(t + more) == t
  {
    assert (t + more)[..8] == t;
  }

  /** A two-digit padded number below a hundred */
  lemma TwoDigits(n: nat)
    requires n < 100
    ensures |ZeroPadded(n, 2)| == 2 && AllDigits(ZeroPadded(n, 2)) && ValueOf(ZeroPadded(n, 2)) == n
  {
    assert Pow10(2) == 100;
    ValueOfZeroPadded(n, 2);
  }

  /** Fields of digits joined by colons are split back apart */
  lemma ClockFields(hs: string, ms: string, ss: string)
    requires AllDigits(hs) && AllDigits(ms)
    ensures ParseClock(Joined(hs, ms, ss)) == ClockValue(hs, ms, ss)
  {
    var rest := ms + ":" + ss;
    assert Joined(hs, ms, ss) == hs + ":" + rest;
    SplitJoined(hs, rest);
    SplitJoined(ms, ss);
  }

  /** Two-digit fields within range name their clock reading */
  lemma ClockValueIs(hs: string, ms: string, ss: string, h: nat, m: nat, s: nat)
    requires |hs| == 2 && |ms| == 2 && |ss| == 2
    requires AllDigits(hs) && AllDigits(ms) && AllDigits(ss)
    requires ValueOf(hs) == h < 24 && ValueOf(ms) == m < 60 && ValueOf(ss) == s < 60
    ensures ClockValue(hs, ms, ss) == Some(3600 * h + 60 * m + s)
  {
    SmallNumberIs(hs, 23);
    SmallNumberIs(ms, 59);
    SmallNumberIs(ss, 59);
  }

  /** A field of one or two digits within bounds is read as its value */
  lemma SmallNumberIs(t: string, hi: int)
    requires 1 <= |t| <= 2 && AllDigits(t) && ValueOf(t) <= hi
    ensures Helpers.SmallNumber(t, 0, hi) == Some(ValueOf(t))
  {
  }

  /** The first occurrence of a character, located */
  lemma IndexOfIs(s: string, c: char, k: nat)
    requires k < |s| && s[k] == c && forall i | 0 <= i < k :: s[i] != c
    ensures Helpers.IndexOf(s, c) == Some(k)
  {
  }

  /** What one row yields before the constructor sees it */
  datatype Fields = Fields(kind: Kind, start: DateTime, duration: int, args: Args)

  /** A speed cell converts under a tag: as a decimal for cycling tags and
      as `minutes:seconds` for running and walking tags */
  predicate SpeedReadable(tag: string, cell: string) {
    && (ReadsCycling(tag) ==> GarminToDecimal(cell).Success?)
    && (ReadsPace(tag) ==> GarminToTime(cell).Success?)
  }

  /** The speed a convertible cell is stored as: a pace for running and
      walking tags (that conversion comes second and wins), miles per hour
      for the other cycling tags, nothing for the rest */
  function SpeedValue(tag: string, cell: string): Option<Speed>
    requires SpeedReadable(tag, cell)
  {
    if ReadsPace(tag) then OptionMap(GarminToTime(cell).value, t => TimeSpeed(t))
    else if ReadsCycling(tag) then OptionMap(GarminToDecimal(cell).value, v => DecimalSpeed(v))
    else None
  }

  /** The maximum and average speed cells: for a cycling tag both are
      converted as decimals, then for a running or walking tag both are
      converted as paces, each step maximum first; the first conversion
      that fails raises */
  function SpeedCells(tag: string, maxText: string, avgText: string): (r: Result<(Option<Speed>, Option<Speed>)>)
    ensures r.Success? <==> SpeedReadable(tag, maxText) && SpeedReadable(tag, avgText)
    ensures r.Success? ==> r.value == (SpeedValue(tag, maxText), SpeedValue(tag, avgText))
    ensures ReadsCycling(tag) && GarminToDecimal(maxText).Failure? ==>
              r == Failure(GarminToDecimal(maxText).error)
    ensures ReadsCycling(tag) && GarminToDecimal(maxText).Success? && GarminToDecimal(avgText).Failure? ==>
              r == Failure(GarminToDecimal(avgText).error)
    ensures (ReadsCycling(tag) ==> GarminToDecimal(maxText).Success? && GarminToDecimal(avgText).Success?)
            && ReadsPace(tag) && GarminToTime(maxText).Failure? ==>
              r == Failure(GarminToTime(maxText).error)
    ensures (ReadsCycling(tag) ==> GarminToDecimal(maxText).Success? && GarminToDecimal(avgText).Success?)
            && ReadsPace(tag) && GarminToTime(maxText).Success? && GarminToTime(avgText).Failure? ==>
              r == Failure(GarminToTime(avgText).error)
  {
    var asMph :- if ReadsCycling(tag) then
                   var mx :- GarminToDecimal(maxText);
                   var av :- GarminToDecimal(avgText);
                   Success((OptionMap(mx, x => DecimalSpeed(x)), OptionMap(av, x => DecimalSpeed(x))))
                 else Success((None, None));
    if ReadsPace(tag) then
      var mx :- GarminToTime(maxText);
      var av :- GarminToTime(avgText);
      Success((OptionMap(mx, x => TimeSpeed(x)), OptionMap(av, x => TimeSpeed(x))))
    else Success(asMph)
  }

  /** A cycling and running row whose maximum speed is a number and whose
      average speed is not raises the decimal conversion's error: both
      cells are read as decimals before either is read as a pace */
  lemma DecimalsBeforePaces()
    ensures var row := map["Distance" := "--", "Max Speed" := "5", "Avg Speed" := "abc", PowerKey := "--"];
            ReadGated(row, "Cycling Running") == Failure(InvalidOperation("decimal"))
  {
    var tag := "Cycling Running";
    assert OccursAt(tag, "Cycling", 0);
    OccursMeans(tag, "Cycling");
    assert GarminToDecimal("5").Success?;
    assert GarminToDecimal("abc").Failure?;
  }

  function OptionMap<A, B>(o: Option<A>, f: A -> B): (r: Option<B>)
    ensures r.Some? <==> o.Some?
  {
    match o
    case None => None
    case Some(a) => Some(f(a))
  }

  /** The cells every row is read from, converted */
  datatype Basics = Basics(tag: string, start: DateTime, duration: nat, title: string,
                           calories: Option<int>, maxHr: Option<int>, avgHr: Option<int>)

  /** The cells read only for some tags, converted */
  datatype Gated = Gated(distance: Option<real>, maxSpeed: Option<Speed>, avgSpeed: Option<Speed>,
                         power: Option<int>)

  /** The columns a row with this tag is read from */
  predicate HasColumns(row: Row, tag: string) {
    BasicColumns(row) && GatedColumns(row, tag)
  }

  /** The columns every row is read from before the tag-dependent ones */
  predicate BasicColumns(row: Row) {
    && "Activity Type" in row && "Date" in row && "Time" in row && "Title" in row
    && "Calories" in row && "Max HR" in row && "Avg HR" in row
  }

  /** The columns read only for some tags, and the speed columns read
      after them */
  predicate GatedColumns(row: Row, tag: string) {
    && (ReadsDistance(tag) ==> "Distance" in row)
    && "Max Speed" in row && "Avg Speed" in row
    && (ReadsCycling(tag) ==> PowerKey in row)
  }

  /** The tag, start, duration, title, calories and heart rates, in the
      order the reader takes them */
  function ReadBasics(row: Row, parseStart: string -> Option<DateTime>): (r: Result<Basics>)
    ensures "Activity Type" !in row ==> r == Failure(KeyError("Activity Type"))
    ensures r.Success? ==> "Activity Type" in row && r.value.tag == row["Activity Type"]
    ensures r.Success? ==> ValidDateTime(r.value.start) && r.value.duration < 86400
  {
    var tag :- Cell(row, "Activity Type");
    var startText :- Cell(row, "Date");
    var start :- if StartReadable(parseStart, startText) then Success(parseStart(startText).value)
                 else Failure(ValueError("isoformat"));
    var timeText :- Cell(row, "Time");
    var duration :- match ParseClock(FirstEight(timeText))
                    case None => Failure(ValueError("time"))
                    case Some(d) => Success(d);
    var title :- Cell(row, "Title");
    var caloriesText :- Cell(row, "Calories");
    var calories :- GarminToInt(caloriesText);
    var maxHrText :- Cell(row, "Max HR");
    var maxHr :- GarminToInt(maxHrText);
    var avgHrText :- Cell(row, "Avg HR");
    var avgHr :- GarminToInt(avgHrText);
    Success(Basics(tag, start, duration, title, calories, maxHr, avgHr))
  }

  /** Distance, speeds and normalized power, in the order the reader takes
      them: the distance cell, both speed cells, their conversions, the
      power cell */
  function ReadGated(row: Row, tag: string): (r: Result<Gated>)
    ensures r.Success? ==> r.value.distance.Some? ==> ReadsDistance(tag)
    ensures r.Success? ==> r.value.power.Some? ==> ReadsCycling(tag)
  {
    var distance :- if ReadsDistance(tag) then
                      var cell :- Cell(row, "Distance");
                      GarminToDecimal(cell)
                    else Success(None);
    var maxSpeedText :- Cell(row, "Max Speed");
    var avgSpeedText :- Cell(row, "Avg Speed");
    var speeds :- SpeedCells(tag, maxSpeedText, avgSpeedText);
    var power :- if ReadsCycling(tag) then
                   var cell :- Cell(row, PowerKey);
                   GarminToInt(cell)
                 else Success(None);
    Success(Gated(distance, speeds.0, speeds.1, power))
  }

  /** The cells of one row turned into constructor arguments */
  function ReadRow(row: Row, parseStart: string -> Option<DateTime>): (r: Result<Fields>)
    ensures "Activity Type" !in row ==> r == Failure(KeyError("Activity Type"))
    ensures r.Success? ==> "Activity Type" in row && r.value.kind == ClassifyTag(row["Activity Type"])
    ensures r.Success? ==> ValidDateTime(r.value.start) && 0 <= r.value.duration < 86400
  {
    var b :- ReadBasics(row, parseStart);
    var g :- ReadGated(row, b.tag);
    Success(Fields(ClassifyTag(b.tag), b.start, b.duration, ArgsOf(b, g)))
  }

  /** The constructor arguments the converted cells fill; the others stay
      unset */
  function ArgsOf(b: Basics, g: Gated): Args {
    NoArgs.(sourceType := Some(b.tag), description := Some(b.title), calories := b.calories,
            maximumHeartRate := b.maxHr, averageHeartRate := b.avgHr,
            distance := g.distance, maximumSpeed := g.maxSpeed,
            averageSpeed := g.avgSpeed, normalizedPower := g.power)
  }

  // Reference definition of a readable row, independent of the order the
  // cells are read in: every column present and every cell converts.

  /** `fromisoformat` accepts the text: the parameter stands for it, and
      any result that is no real date-time counts as its `ValueError` */
  predicate StartReadable(parseStart: string -> Option<DateTime>, text: string) {
    parseStart(text).Some? && ValidDateTime(parseStart(text).value)
  }

  predicate BasicsReadable(row: Row, parseStart: string -> Option<DateTime>)
    requires BasicColumns(row)
  {
    && StartReadable(parseStart, row["Date"])
    && ParseClock(FirstEight(row["Time"])).Some?
    && GarminToInt(row["Calories"]).Success?
    && GarminToInt(row["Max HR"]).Success?
    && GarminToInt(row["Avg HR"]).Success?
  }

  predicate GatedReadable(row: Row, tag: string)
    requires GatedColumns(row, tag)
  {
    && (ReadsDistance(tag) ==> GarminToDecimal(row["Distance"]).Success?)
    && SpeedReadable(tag, row["Max Speed"])
    && SpeedReadable(tag, row["Avg Speed"])
    && (ReadsCycling(tag) ==> GarminToInt(row[PowerKey]).Success?)
  }

  predicate Readable(row: Row, parseStart: string -> Option<DateTime>) {
    && "Activity Type" in row
    && HasColumns(row, row["Activity Type"])
    && BasicsReadable(row, parseStart)
    && GatedReadable(row, row["Activity Type"])
  }

  /** The common cells read exactly when present and convertible, each to
      its own conversion */
  lemma ReadBasicsFields(row: Row, parseStart: string -> Option<DateTime>)
    requires "Activity Type" in row
    ensures var r := ReadBasics(row, parseStart);
            var tag := row["Activity Type"];
            && (r.Success? <==> && "Date" in row && "Time" in row && "Title" in row
                                && "Calories" in row && "Max HR" in row && "Avg HR" in row
                                && StartReadable(parseStart, row["Date"])
                                && ParseClock(FirstEight(row["Time"])).Some?
                                && GarminToInt(row["Calories"]).Success?
                                && GarminToInt(row["Max HR"]).Success?
                                && GarminToInt(row["Avg HR"]).Success?)
            && (r.Success? ==> && r.value.start == parseStart(row["Date"]).value
                               && r.value.duration == ParseClock(FirstEight(row["Time"])).value
                               && r.value.title == row["Title"]
                               && r.value.calories == GarminToInt(row["Calories"]).value
                               && r.value.maxHr == GarminToInt(row["Max HR"]).value
                               && r.value.avgHr == GarminToInt(row["Avg HR"]).value)
  {
  }

  /** The tag-dependent cells read exactly when present and convertible;
      distance only for cycling, running and walking tags, normalized power
      only for cycling tags */
  lemma ReadGatedFields(row: Row, tag: string)
    ensures var r := ReadGated(row, tag);
            && (r.Success? <==> GatedColumns(row, tag) && GatedReadable(row, tag))
            && (r.Success? ==>
                  && r.value.distance == (if ReadsDistance(tag) then GarminToDecimal(row["Distance"]).value else None)
                  && r.value.maxSpeed == SpeedValue(tag, row["Max Speed"])
                  && r.value.avgSpeed == SpeedValue(tag, row["Avg Speed"])
                  && r.value.power == (if ReadsCycling(tag) then GarminToInt(row[PowerKey]).value else None))
  {
  }

  /** A row reads exactly when it is readable, and then every argument is
      its own cell's conversion, the tag is passed on as the Garmin
      activity type, and there is no venue, category, partner or trainer */
  lemma ReadRowFields(row: Row, parseStart: string -> Option<DateTime>)
    requires "Activity Type" in row
    ensures ReadRow(row, parseStart).Success? <==> Readable(row, parseStart)
    ensures ReadRow(row, parseStart).Success? ==>
      var tag := row["Activity Type"];
      var f := ReadRow(row, parseStart).value;
      && f.start == parseStart(row["Date"]).value
      && f.duration == ParseClock(FirstEight(row["Time"])).value
      && f.args.description == Some(row["Title"])
      && f.args.calories == GarminToInt(row["Calories"]).value
      && f.args.maximumHeartRate == GarminToInt(row["Max HR"]).value
      && f.args.averageHeartRate == GarminToInt(row["Avg HR"]).value
      && f.args.distance == (if ReadsDistance(tag) then GarminToDecimal(row["Distance"]).value else None)
      && f.args.maximumSpeed == SpeedValue(tag, row["Max Speed"])
      && f.args.averageSpeed == SpeedValue(tag, row["Avg Speed"])
      && f.args.normalizedPower == (if ReadsCycling(tag) then GarminToInt(row[PowerKey]).value else None)
      && f.args.sourceType == Some(tag)
      && f.args.venue.None? && f.args.venueType.None?
      && f.args.category.None? && f.args.partner.None? && f.args.trainer.None?
  {
    ReadBasicsFields(row, parseStart);
    ReadGatedFields(row, row["Activity Type"]);
  }

  /** The activity one row describes */
  function RowActivity(row: Row, parseStart: string -> Option<DateTime>): (r: Result<Activity>)
    ensures r.Success? ==> "Activity Type" in row && KindOf(r.value) == ClassifyTag(row["Activity Type"])
    ensures r.Success? ==> Activities.WellFormed(r.value)
  {
    var f :- ReadRow(row, parseStart);
    Construct(f.kind, f.start, f.duration, f.args)
  }

  /** The reader as written: rows are added in order with the original
      `add_activity`, and the first exception ends the loop with the rows
      before it kept */
  function IngestAsWritten(ath: Athlete, rows: seq<Row>, parseStart: string -> Option<DateTime>): (o: Outcome)
    requires Shaped(ath)
    ensures Shaped(o.after)
    ensures ath.poisoned ==> o.after.poisoned
    ensures o.after.goals == ath.goals
    decreases |rows|
  {
    if rows == [] then Outcome(ath, None)
    else
      match RowActivity(rows[0], parseStart)
      case Failure(e) => Outcome(ath, Some(e))
      case Success(a) =>
        var step := AddActivityAsWritten(ath, a);
        if step.raised.Some? then step
        else IngestAsWritten(step.after, rows[1..], parseStart)
  }

  /** The reader with the corrected `add_activity`, which refuses a base
      activity without touching the athlete */
  function Ingest(ath: Athlete, rows: seq<Row>, parseStart: string -> Option<DateTime>): (o: Outcome)
    requires Shaped(ath)
    ensures Shaped(o.after)
    ensures o.after.goals == ath.goals && o.after.poisoned == ath.poisoned
    decreases |rows|
  {
    if rows == [] then Outcome(ath, None)
    else
      match RowActivity(rows[0], parseStart)
      case Failure(e) => Outcome(ath, Some(e))
      case Success(a) =>
        match AddActivity(ath, a)
        case Failure(e) => Outcome(ath, Some(e))
        case Success(next) => Ingest(next, rows[1..], parseStart)
  }

  /** Reading rows in two batches is reading them at once: the second batch
      runs only when the first raised nothing */
  lemma {:induction false} IngestConcat(ath: Athlete, rows: seq<Row>, more: seq<Row>, parseStart: string -> Option<DateTime>)
    requires Shaped(ath)
    ensures var first := Ingest(ath, rows, parseStart);
            Ingest(ath, rows + more, parseStart)
              == if first.raised.Some? then first else Ingest(first.after, more, parseStart)
    decreases |rows|
  {
    if rows == [] {
      assert rows + more == more;
    } else {
      assert (rows + more)[0] == rows[0];
      assert (rows + more)[1..] == rows[1..] + more;
      match RowActivity(rows[0], parseStart)
      case Failure(_) =>
      case Success(a) =>
        match AddActivity(ath, a)
        case Failure(_) =>
        case Success(next) => IngestConcat(next, rows[1..], more, parseStart);
    }
  }

  /** The corrected reader keeps a well-formed athlete well-formed, whatever
      the rows */
  lemma {:induction false} IngestKeepsWellFormed(ath: Athlete, rows: seq<Row>, parseStart: string -> Option<DateTime>)
    requires Athletes.WellFormed(ath)
    ensures Athletes.WellFormed(Ingest(ath, rows, parseStart).after)
    decreases |rows|
  {
    if rows != [] {
      match RowActivity(rows[0], parseStart)
      case Failure(_) =>
      case Success(a) =>
        match AddActivity(ath, a)
        case Failure(_) =>
        case Success(next) =>
          AddActivityKeepsWellFormed(ath, a);
          IngestKeepsWellFormed(next, rows[1..], parseStart);
    }
  }

  /** While no row raises, the two readers agree: they differ only from a
      row whose tag selects no class */
  lemma {:induction false} IngestAgrees(ath: Athlete, rows: seq<Row>, parseStart: string -> Option<DateTime>)
    requires Shaped(ath)
    ensures Ingest(ath, rows, parseStart).raised.None? ==>
              IngestAsWritten(ath, rows, parseStart) == Ingest(ath, rows, parseStart)
    decreases |rows|
  {
    if rows != [] {
      match RowActivity(rows[0], parseStart)
      case Failure(_) =>
      case Success(a) =>
        if KindOf(a) != Base {
          IngestAgrees(AddActivity(ath, a).value, rows[1..], parseStart);
        }
    }
  }

  /** As written, a readable row whose tag names no class raises
      `TypeError` and leaves the athlete unable to list all activities */
  lemma UnknownTagPoisons(ath: Athlete, row: Row, parseStart: string -> Option<DateTime>)
    requires Shaped(ath) && RowActivity(row, parseStart).Success?
    requires ClassifyTag(row["Activity Type"]) == Base
    ensures var o := IngestAsWritten(ath, [row], parseStart);
            && o.raised == Some(TypeError("activities"))
            && GetActivities(o.after, None) == Failure(AttributeError("values"))
  {
    BaseActivityBreaksListing(ath, RowActivity(row, parseStart).value);
  }

  /** A row the corrected reader accepts is stored under its tag's class at
      its start, unless an activity of that class already starts there, and
      every other class's activities are untouched */
  lemma IngestStoresRow(ath: Athlete, row: Row, parseStart: string -> Option<DateTime>)
    requires Shaped(ath)
    ensures var o := Ingest(ath, [row], parseStart);
            o.raised.None? ==>
              && RowActivity(row, parseStart).Success?
              && var a := RowActivity(row, parseStart).value;
                 && KindOf(a) == ClassifyTag(row["Activity Type"]) != Base
                 && a.start in o.after.stores[KindOf(a)].entries
                 && (a.start !in ath.stores[KindOf(a)].entries ==> o.after.stores[KindOf(a)].entries[a.start] == a)
                 && forall v | v in ath.stores && v != KindOf(a) :: o.after.stores[v] == ath.stores[v]
  {
    assert [row][1..] == [];
  }

  /** A tag naming cycling together with running or walking has both
      speeds converted as miles per hour and then as paces; no cell is both
      a decimal and a `minutes:seconds` time, so such a row reads only when
      both speed cells are empty */
  lemma MixedTagNeedsEmptySpeeds(tag: string, maxText: string, avgText: string)
    requires ReadsCycling(tag) && ReadsPace(tag)
    ensures SpeedCells(tag, maxText, avgText).Success? ==> IsSentinel(maxText) && IsSentinel(avgText)
    ensures SpeedCells(tag, maxText, avgText).Success? ==> SpeedCells(tag, maxText, avgText).value == (None, None)
  {
    NoCellIsBoth(maxText);
    NoCellIsBoth(avgText);
  }

  /** Only a sentinel converts both as a decimal and as `minutes:seconds` */
  lemma NoCellIsBoth(cell: string)
    ensures GarminToDecimal(cell).Success? && GarminToTime(cell).Success? ==> IsSentinel(cell)
  {
    if GarminToDecimal(cell).Success? && GarminToTime(cell).Success? && !IsSentinel(cell) {
      var j := Helpers.IndexOf(cell, ':').value;
      RemoveCommasKeeps(cell, j);
      var k :| 0 <= k < |RemoveCommas(cell)| && RemoveCommas(cell)[k] == ':';
      DecimalHasNoColon(RemoveCommas(cell), k);
      assert false;
    }
  }

  /** Dropping commas keeps every other character */
  lemma {:induction false} RemoveCommasKeeps(s: string, j: nat)
    requires j < |s| && s[j] != ','
    ensures exists k :: 0 <= k < |RemoveCommas(s)| && RemoveCommas(s)[k] == s[j]
  {
    if j > 0 {
      RemoveCommasKeeps(s[1..], j - 1);
      var k :| 0 <= k < |RemoveCommas(s[1..])| && RemoveCommas(s[1..])[k] == s[j];
      if s[0] != ',' {
        assert RemoveCommas(s) == [s[0]] + RemoveCommas(s[1..]);
        assert RemoveCommas(s)[k + 1] == s[j];
      } else {
        assert RemoveCommas(s) == RemoveCommas(s[1..]);
        assert RemoveCommas(s)[k] == s[j];
      }
    } else {
      assert RemoveCommas(s)[0] == s[0];
    }
  }

  /** A decimal numeral holds digits, a point and a sign, never a colon */
  lemma DecimalHasNoColon(s: string, k: nat)
    requires k < |s| && s[k] == ':'
    ensures ParseDecimal(s).None?
  {
    if |s| >= 1 && (s[0] == '+' || s[0] == '-') {
      assert s[1..][k - 1] == ':';
      UnsignedDecimalHasNoColon(s[1..], k - 1);
    } else {
      UnsignedDecimalHasNoColon(s, k);
    }
  }

  lemma UnsignedDecimalHasNoColon(s: string, k: nat)
    requires k < |s| && s[k] == ':'
    ensures ParseUnsignedDecimal(s).None?
  {
    match Helpers.IndexOf(s, '.')
    case None =>
      assert !IsDigit(s[k]);
    case Some(j) =>
      if k < j {
        assert s[..j][k] == ':';
        assert !IsDigit(s[..j][k]);
      } else {
        assert s[j + 1..][k - j - 1] == ':';
        assert !IsDigit(s[j + 1..][k - j - 1]);
      }
  }
}
