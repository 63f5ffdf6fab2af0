/** Activities: the base class, its five subclasses, their validated
    construction and the per-variant tally. */
module Activities {
  import opened Wrappers
  import opened Dates

  /** The class of an activity: the base `Activity` or one of its five
      subclasses */
  datatype Kind = Base | Cycle | Run | Tennis | Walk | Workout

  /** The five subclasses, under which activities are stored, tallied and
      given goals */
  type Variant = k: Kind | k != Base witness Cycle

  /** `Activity.subclasses()`, in declaration order */
  const Variants: seq<Variant> := [Cycle, Run, Tennis, Walk, Workout]

  /** Where a subclass sits in `Variants`: every subclass is listed */
  function VariantIndex(v: Variant): (i: nat)
    ensures i < |Variants| && Variants[i] == v
  {
    if v == Cycle then 0 else if v == Run then 1 else if v == Tennis then 2
    else if v == Walk then 3 else 4
  }

  /** `Activity.subclass_names()` */
  const VariantNames: seq<string> := ["Cycle", "Run", "Tennis", "Walk", "Workout"]

  /** The class name, `type(activity).__name__` */
  function Name(k: Kind): string {
    match k
    case Base => "Activity"
    case Cycle => "Cycle"
    case Run => "Run"
    case Tennis => "Tennis"
    case Walk => "Walk"
    case Workout => "Workout"
  }

  /** `Activity.activity_dictionary()[name]`, `None` for a name that is not
      a subclass name */
  function VariantNamed(name: string): (r: Option<Variant>)
    ensures r.Some? <==> name in VariantNames
    ensures r.Some? ==> Name(r.value) == name
  {
    if name == "Cycle" then Some(Cycle)
    else if name == "Run" then Some(Run)
    else if name == "Tennis" then Some(Tennis)
    else if name == "Walk" then Some(Walk)
    else if name == "Workout" then Some(Workout)
    else None
  }

  /** The name table and the lookup are inverse to each other */
  lemma VariantNamesRoundTrip(v: Variant)
    ensures VariantNamed(Name(v)) == Some(v)
    ensures Name(v) in VariantNames
  {
  }

  /** The variants whose tally carries a distance */
  predicate HasDistance(k: Kind) {
    k == Cycle || k == Run || k == Walk
  }

  /** A speed argument: a `Decimal` in miles per hour (Cycle) or a
      `datetime.time` holding a minutes:seconds pace (Run, Walk) */
  datatype Speed = DecimalSpeed(mph: real) | TimeSpeed(pace: TimeOfDay)

  // Python truthiness of the optional arguments: `None`, `0`, `0.0` and
  // `""` are false; every `datetime.time` is true.

  predicate IntGiven(o: Option<int>) {
    o.Some? && o.value != 0
  }

  predicate RealGiven(o: Option<real>) {
    o.Some? && o.value != 0.0
  }

  predicate TextGiven(o: Option<string>) {
    o.Some? && o.value != ""
  }

  predicate SpeedGiven(o: Option<Speed>) {
    o.Some? && (o.value.TimeSpeed? || o.value.mph != 0.0)
  }

  const VenueTypes: set<string> := {"indoor", "outdoor"}
  const CycleTypes: set<string> := {"commute", "road", "trail", "stationary"}
  const RunTypes: set<string> := {"track", "road", "treadmill"}
  const WalkTypes: set<string> := {"track", "road", "treadmill"}
  const TennisTypes: set<string> := {"ball_machine", "cardio", "drill", "hitting_session", "lesson", "match"}
  const WorkoutTypes: set<string> := {"personal_training", "solo"}

  /** The allowed `type` values of a class; the base class has no `type` */
  function TypesOf(k: Kind): set<string> {
    match k
    case Base => {}
    case Cycle => CycleTypes
    case Run => RunTypes
    case Tennis => TennisTypes
    case Walk => WalkTypes
    case Workout => WorkoutTypes
  }

  /** The keyword arguments a constructor may receive.  Each class reads the
      ones it knows and ignores the rest.  `category` is the `type` keyword;
      `sourceType` is `garmin_activity_type`. */
  datatype Args = Args(
    description: Option<string>,
    calories: Option<int>,
    maximumHeartRate: Option<int>,
    averageHeartRate: Option<int>,
    venue: Option<string>,
    venueType: Option<string>,
    sourceType: Option<string>,
    distance: Option<real>,
    category: Option<string>,
    maximumSpeed: Option<Speed>,
    averageSpeed: Option<Speed>,
    normalizedPower: Option<int>,
    partner: Option<string>,
    trainer: Option<string>)

  const NoArgs: Args := Args(None, None, None, None, None, None, None, None, None, None, None, None, None, None)

  /** The attributes a subclass adds to the base class */
  datatype Details =
    | BaseDetails
    | CycleDetails(distance: Option<real>, category: Option<string>, maximumSpeed: Option<Speed>,
                   averageSpeed: Option<Speed>, normalizedPower: Option<int>)
    | RunDetails(distance: Option<real>, category: Option<string>, maximumSpeed: Option<Speed>,
                 averageSpeed: Option<Speed>)
    | TennisDetails(partner: Option<string>, category: Option<string>)
    | WalkDetails(distance: Option<real>, category: Option<string>, maximumSpeed: Option<Speed>,
                  averageSpeed: Option<Speed>)
    | WorkoutDetails(trainer: Option<string>, category: Option<string>)

  /** An activity as the constructors store it; `duration` is in seconds */
  datatype Activity = Activity(
    start: DateTime,
    duration: int,
    description: Option<string>,
    calories: Option<int>,
    maximumHeartRate: Option<int>,
    averageHeartRate: Option<int>,
    venue: Option<string>,
    venueType: Option<string>,
    sourceType: Option<string>,
    details: Details)

  function KindOf(a: Activity): Kind {
    match a.details
    case BaseDetails => Base
    case CycleDetails(_, _, _, _, _) => Cycle
    case RunDetails(_, _, _, _) => Run
    case TennisDetails(_, _) => Tennis
    case WalkDetails(_, _, _, _) => Walk
    case WorkoutDetails(_, _) => Workout
  }

  /** The distance of an activity that has one */
  function DistanceOf(a: Activity): Option<real> {
    if a.details.CycleDetails? || a.details.RunDetails? || a.details.WalkDetails? then a.details.distance
    else None
  }

  // Reference definition of what the constructors accept, stated field by
  // field rather than as the sequence of checks the constructors run.

  predicate NonNegativeInt(o: Option<int>) {
    o.None? || o.value >= 0
  }

  predicate NonNegativeReal(o: Option<real>) {
    o.None? || o.value >= 0.0
  }

  predicate OneOf(o: Option<string>, allowed: set<string>) {
    o.None? || o.value == "" || o.value in allowed
  }

  /** A speed argument a Cycle accepts: missing, zero, or a positive decimal */
  predicate DecimalSpeedOk(o: Option<Speed>) {
    o.None? || (o.value.DecimalSpeed? && o.value.mph >= 0.0)
  }

  /** A speed argument a Run or Walk accepts: missing, zero, or a time */
  predicate TimeSpeedOk(o: Option<Speed>) {
    o.None? || o.value.TimeSpeed? || o.value.mph == 0.0
  }

  /** The arguments a constructor of class `k` accepts: numbers zero, absent
      or positive; enumerated text empty, absent or in its set; speeds of
      the type the class expects */
  predicate Acceptable(k: Kind, args: Args) {
    && NonNegativeInt(args.calories)
    && NonNegativeInt(args.maximumHeartRate)
    && NonNegativeInt(args.averageHeartRate)
    && OneOf(args.venueType, VenueTypes)
    && (HasDistance(k) ==> NonNegativeReal(args.distance))
    && (k != Base ==> OneOf(args.category, TypesOf(k)))
    && (k == Cycle ==> DecimalSpeedOk(args.maximumSpeed) && DecimalSpeedOk(args.averageSpeed))
    && (k == Cycle ==> NonNegativeInt(args.normalizedPower))
    && (k == Run || k == Walk ==> TimeSpeedOk(args.maximumSpeed) && TimeSpeedOk(args.averageSpeed))
  }

  /** The attributes of class `k` built from the arguments it reads */
  predicate Keeps(k: Kind, args: Args, d: Details) {
    match k
    case Base => d.BaseDetails?
    case Cycle => d == CycleDetails(args.distance, args.category, args.maximumSpeed, args.averageSpeed, args.normalizedPower)
    case Run => d == RunDetails(args.distance, args.category, args.maximumSpeed, args.averageSpeed)
    case Tennis => d == TennisDetails(args.partner, args.category)
    case Walk => d == WalkDetails(args.distance, args.category, args.maximumSpeed, args.averageSpeed)
    case Workout => d == WorkoutDetails(args.trainer, args.category)
  }

  /** What every constructed activity satisfies */
  predicate WellFormed(a: Activity) {
    && ValidDateTime(a.start)
    && NonNegativeInt(a.calories)
    && NonNegativeInt(a.maximumHeartRate)
    && NonNegativeInt(a.averageHeartRate)
    && OneOf(a.venueType, VenueTypes)
    && NonNegativeReal(DistanceOf(a))
    && (a.details.CycleDetails? ==> NonNegativeInt(a.details.normalizedPower))
  }

  // The checks, in the order the constructors run them.

  /** `if x and x <= 0: raise ValueError` */
  function CheckPositiveInt(o: Option<int>, field: string): Result<()> {
    Check(!(IntGiven(o) && o.value <= 0), ValueError(field))
  }

  function CheckPositiveReal(o: Option<real>, field: string): Result<()> {
    Check(!(RealGiven(o) && o.value <= 0.0), ValueError(field))
  }

  /** `if x and x not in allowed: raise ValueError` */
  function CheckChoice(o: Option<string>, allowed: set<string>, field: string): Result<()> {
    Check(!(TextGiven(o) && o.value !in allowed), ValueError(field))
  }

  /** A Cycle speed: `TypeError` unless a `Decimal`, `ValueError` unless positive */
  function CheckDecimalSpeed(o: Option<Speed>, field: string): Result<()> {
    if SpeedGiven(o) && !o.value.DecimalSpeed? then Failure(TypeError(field))
    else Check(!(SpeedGiven(o) && o.value.mph <= 0.0), ValueError(field))
  }

  /** A Run or Walk speed: `TypeError` unless a `datetime.time` */
  function CheckTimeSpeed(o: Option<Speed>, field: string): Result<()> {
    Check(!(SpeedGiven(o) && !o.value.TimeSpeed?), TypeError(field))
  }

  /** `Activity.__init__`'s checks of the arguments every class reads.  The
      `isinstance` checks of text fields have no counterpart: the argument
      types already guarantee them. */
  function CheckCommon(start: DateTime, args: Args): Result<()> {
    var _ :- Check(ValidDateTime(start), TypeError("start"));
    var _ :- CheckPositiveInt(args.calories, "calories");
    var _ :- CheckPositiveInt(args.maximumHeartRate, "maximum_heart_rate");
    var _ :- CheckPositiveInt(args.averageHeartRate, "average_heart_rate");
    CheckChoice(args.venueType, VenueTypes, "venue_type")
  }

  /** The checks a subclass runs after the base class's */
  function CheckSpecific(k: Kind, args: Args): Result<()> {
    match k
    case Base => Success(())
    case Cycle =>
      var _ :- CheckPositiveReal(args.distance, "distance");
      var _ :- CheckChoice(args.category, CycleTypes, "type");
      var _ :- CheckDecimalSpeed(args.maximumSpeed, "maximum_speed");
      var _ :- CheckDecimalSpeed(args.averageSpeed, "average_speed");
      CheckPositiveInt(args.normalizedPower, "normalized_power")
    case Run =>
      var _ :- CheckPositiveReal(args.distance, "distance");
      var _ :- CheckChoice(args.category, RunTypes, "type");
      var _ :- CheckTimeSpeed(args.maximumSpeed, "maximum_speed");
      CheckTimeSpeed(args.averageSpeed, "average_speed")
    case Tennis =>
      CheckChoice(args.category, TennisTypes, "type")
    case Walk =>
      var _ :- CheckPositiveReal(args.distance, "distance");
      var _ :- CheckChoice(args.category, WalkTypes, "type");
      var _ :- CheckTimeSpeed(args.maximumSpeed, "maximum_speed");
      CheckTimeSpeed(args.averageSpeed, "average_speed")
    case Workout =>
      CheckChoice(args.category, WorkoutTypes, "type")
  }

  function DetailsFor(k: Kind, args: Args): Details {
    match k
    case Base => BaseDetails
    case Cycle => CycleDetails(args.distance, args.category, args.maximumSpeed, args.averageSpeed, args.normalizedPower)
    case Run => RunDetails(args.distance, args.category, args.maximumSpeed, args.averageSpeed)
    case Tennis => TennisDetails(args.partner, args.category)
    case Walk => WalkDetails(args.distance, args.category, args.maximumSpeed, args.averageSpeed)
    case Workout => WorkoutDetails(args.trainer, args.category)
  }

  /** The constructor of class `k` (`Activity(...)`, `Cycle(...)`, ...).
      It succeeds exactly on acceptable arguments and then stores every
      argument its class reads unchanged, zeros included. */
  function Construct(k: Kind, start: DateTime, duration: int, args: Args): (r: Result<Activity>)
    ensures r.Success? <==> ValidDateTime(start) && Acceptable(k, args)
    ensures r.Success? ==> KindOf(r.value) == k && WellFormed(r.value)
    ensures r.Success? ==> Keeps(k, args, r.value.details)
    ensures r.Success? ==> && r.value.start == start && r.value.duration == duration
                           && r.value.description == args.description
                           && r.value.calories == args.calories
                           && r.value.maximumHeartRate == args.maximumHeartRate
                           && r.value.averageHeartRate == args.averageHeartRate
                           && r.value.venue == args.venue
                           && r.value.venueType == args.venueType
                           && r.value.sourceType == args.sourceType
  {
    var _ :- CheckCommon(start, args);
    var _ :- CheckSpecific(k, args);
    Success(Activity(start, duration, args.description, args.calories, args.maximumHeartRate,
                     args.averageHeartRate, args.venue, args.venueType, args.sourceType,
                     DetailsFor(k, args)))
  }

  /** A subclass runs the base class's checks before its own, so an
      argument the base class refuses is reported with the base class's
      error whatever the class */
  lemma BaseChecksFirst(k: Kind, start: DateTime, duration: int, args: Args)
    requires CheckCommon(start, args).Failure?
    ensures Construct(k, start, duration, args) == Failure(CheckCommon(start, args).error)
  {
  }

  /** A Cycle keeps its speeds in miles per hour: a kept speed is absent,
      zero or a positive decimal, and a pace given as the maximum speed is
      refused with `TypeError` once the earlier checks pass */
  lemma CycleSpeedsInMph(start: DateTime, duration: int, args: Args)
    ensures Construct(Cycle, start, duration, args).Success? ==>
              DecimalSpeedOk(args.maximumSpeed) && DecimalSpeedOk(args.averageSpeed)
    ensures && CheckCommon(start, args).Success?
            && CheckPositiveReal(args.distance, "distance").Success?
            && CheckChoice(args.category, CycleTypes, "type").Success?
            && args.maximumSpeed.Some? && args.maximumSpeed.value.TimeSpeed? ==>
              Construct(Cycle, start, duration, args) == Failure(TypeError("maximum_speed"))
  {
  }

  /** A Run keeps its speeds as paces: a kept speed is absent, a zero
      decimal or a time, and a nonzero decimal maximum speed is refused
      with `TypeError` once the earlier checks pass */
  lemma RunSpeedsArePaces(start: DateTime, duration: int, args: Args)
    ensures Construct(Run, start, duration, args).Success? ==>
              TimeSpeedOk(args.maximumSpeed) && TimeSpeedOk(args.averageSpeed)
    ensures && CheckCommon(start, args).Success?
            && CheckPositiveReal(args.distance, "distance").Success?
            && CheckChoice(args.category, RunTypes, "type").Success?
            && args.maximumSpeed.Some? && args.maximumSpeed.value.DecimalSpeed?
            && args.maximumSpeed.value.mph != 0.0 ==>
              Construct(Run, start, duration, args) == Failure(TypeError("maximum_speed"))
  {
  }

  /** A Walk, like a Run, keeps paces; its average speed is checked after
      its maximum speed */
  lemma WalkSpeedsArePaces(start: DateTime, duration: int, args: Args)
    ensures Construct(Walk, start, duration, args).Success? ==>
              TimeSpeedOk(args.maximumSpeed) && TimeSpeedOk(args.averageSpeed)
    ensures && CheckCommon(start, args).Success?
            && CheckPositiveReal(args.distance, "distance").Success?
            && CheckChoice(args.category, WalkTypes, "type").Success?
            && TimeSpeedOk(args.maximumSpeed)
            && args.averageSpeed.Some? && args.averageSpeed.value.DecimalSpeed?
            && args.averageSpeed.value.mph != 0.0 ==>
              Construct(Walk, start, duration, args) == Failure(TypeError("average_speed"))
  {
  }

  /** Once the base checks pass, a Tennis activity fails only on a
      non-empty type outside its set, with `ValueError`; any partner is kept */
  lemma TennisTypeChecked(start: DateTime, duration: int, args: Args)
    requires CheckCommon(start, args).Success?
    ensures var r := Construct(Tennis, start, duration, args);
            && (r.Failure? <==> TextGiven(args.category) && args.category.value !in TennisTypes)
            && (r.Failure? ==> r.error == ValueError("type"))
            && (r.Success? ==> r.value.details == TennisDetails(args.partner, args.category))
  {
  }

  /** The same for a Workout, with its own type set and a trainer */
  lemma WorkoutTypeChecked(start: DateTime, duration: int, args: Args)
    requires CheckCommon(start, args).Success?
    ensures var r := Construct(Workout, start, duration, args);
            && (r.Failure? <==> TextGiven(args.category) && args.category.value !in WorkoutTypes)
            && (r.Failure? ==> r.error == ValueError("type"))
            && (r.Success? ==> r.value.details == WorkoutDetails(args.trainer, args.category))
  {
  }

  /** The aggregate `Activity.tally` returns: a count, calories and seconds
      of duration, and a distance for the variants that have one */
  datatype Tally = Tally(count: nat, calories: int, duration: int, distance: Option<real>)

  function EmptyTally(withDistance: bool): (t: Tally)
    ensures t.count == 0 && t.distance.Some? == withDistance
  {
    Tally(0, 0, 0, if withDistance then Some(0.0) else None)
  }

  /** One activity's contribution: a count of one, its calories and distance
      when given (absent adds nothing), its duration */
  function Contribution(a: Activity, withDistance: bool): (t: Tally)
    ensures t.count == 1 && t.distance.Some? == withDistance
  {
    Tally(1,
          if IntGiven(a.calories) then a.calories.value else 0,
          a.duration,
          if !withDistance then None
          else if RealGiven(DistanceOf(a)) then DistanceOf(a)
          else Some(0.0))
  }

  /** Two tallies added metric by metric, as `Counter.update` adds */
  function Merge(t: Tally, u: Tally): (r: Tally)
    requires t.distance.Some? == u.distance.Some?
    ensures r.count == t.count + u.count && r.distance.Some? == t.distance.Some?
  {
    Tally(t.count + u.count, t.calories + u.calories, t.duration + u.duration,
          if t.distance.Some? then Some(t.distance.value + u.distance.value) else None)
  }

  /** The loop of `Activity.tally` over a list of activities: those whose
      start date lies in [lo, hi] contribute */
  function TallyOf(acts: seq<Activity>, withDistance: bool, lo: Date, hi: Date): (t: Tally)
    ensures t.distance.Some? == withDistance
    ensures t.count <= |acts|
    ensures (forall i | 0 <= i < |acts| :: !InWindow(acts[i].start.date, lo, hi)) ==> t == EmptyTally(withDistance)
  {
    if acts == [] then EmptyTally(withDistance)
    else
      var t := TallyOf(acts[..|acts| - 1], withDistance, lo, hi);
      var a := acts[|acts| - 1];
      if InWindow(a.start.date, lo, hi) then Merge(t, Contribution(a, withDistance)) else t
  }

  /** The starts of the activities in the window */
  function WindowStarts(acts: seq<Activity>, lo: Date, hi: Date): set<DateTime> {
    set a | a in acts && InWindow(a.start.date, lo, hi) :: a.start
  }

  predicate DistinctStarts(acts: seq<Activity>) {
    forall i, j | 0 <= i < j < |acts| :: acts[i].start != acts[j].start
  }

  /** With distinct starts, the count is the number of activities whose
      start date lies in the window, both ends included */
  lemma {:induction false} TallyCountsWindow(acts: seq<Activity>, withDistance: bool, lo: Date, hi: Date)
    requires DistinctStarts(acts)
    ensures TallyOf(acts, withDistance, lo, hi).count == |WindowStarts(acts, lo, hi)|
  {
    if acts != [] {
      var init, a := acts[..|acts| - 1], acts[|acts| - 1];
      assert acts == init + [a];
      TallyCountsWindow(init, withDistance, lo, hi);
      assert a.start !in WindowStarts(init, lo, hi) by {
        forall b | b in init
          ensures b.start != a.start
        {
          var i :| 0 <= i < |init| && init[i] == b;
          assert acts[i] == b;
        }
      }
      if InWindow(a.start.date, lo, hi) {
        assert WindowStarts(acts, lo, hi) == WindowStarts(init, lo, hi) + {a.start};
      } else {
        assert WindowStarts(acts, lo, hi) == WindowStarts(init, lo, hi);
      }
    }
  }

  lemma MergeAssociative(t: Tally, u: Tally, w: Tally)
    requires t.distance.Some? == u.distance.Some? == w.distance.Some?
    ensures Merge(Merge(t, u), w) == Merge(t, Merge(u, w))
  {
  }

  lemma MergeCommutative(t: Tally, u: Tally)
    requires t.distance.Some? == u.distance.Some?
    ensures Merge(t, u) == Merge(u, t)
  {
  }

  lemma MergeEmpty(t: Tally)
    ensures Merge(t, EmptyTally(t.distance.Some?)) == t
    ensures Merge(EmptyTally(t.distance.Some?), t) == t
  {
  }

  /** Tallying two lists one after the other adds their tallies */
  lemma {:induction false} TallyAppend(xs: seq<Activity>, ys: seq<Activity>, withDistance: bool, lo: Date, hi: Date)
    ensures TallyOf(xs + ys, withDistance, lo, hi)
         == Merge(TallyOf(xs, withDistance, lo, hi), TallyOf(ys, withDistance, lo, hi))
  {
    if ys == [] {
      assert xs + ys == xs;
      MergeEmpty(TallyOf(xs, withDistance, lo, hi));
    } else {
      var init, a := ys[..|ys| - 1], ys[|ys| - 1];
      assert (xs + ys)[..|xs + ys| - 1] == xs + init;
      assert (xs + ys)[|xs + ys| - 1] == a;
      TallyAppend(xs, init, withDistance, lo, hi);
      if InWindow(a.start.date, lo, hi) {
        MergeAssociative(TallyOf(xs, withDistance, lo, hi), TallyOf(init, withDistance, lo, hi),
                         Contribution(a, withDistance));
      }
    }
  }

  /** The tally does not depend on the order of the activities: any
      rearrangement of the same activities tallies the same */
  lemma {:induction false} TallyIgnoresOrder(xs: seq<Activity>, ys: seq<Activity>, withDistance: bool, lo: Date, hi: Date)
    requires multiset(xs) == multiset(ys)
    ensures TallyOf(xs, withDistance, lo, hi) == TallyOf(ys, withDistance, lo, hi)
    decreases |xs|
  {
    if xs == [] {
      assert |ys| == |multiset(ys)| == 0;
    } else {
      var init, a := xs[..|xs| - 1], xs[|xs| - 1];
      assert xs == init + [a];
      assert a in multiset(ys);
      var k :| 0 <= k < |ys| && ys[k] == a;
      var left, right := ys[..k], ys[k + 1..];
      assert ys == left + [a] + right;
      assert multiset(init) == multiset(left + right) by {
        calc {
          multiset(init) + multiset{a};
          multiset(xs);
          multiset(ys);
          multiset(left) + multiset{a} + multiset(right);
          multiset(left + right) + multiset{a};
        }
        var p, q := multiset(init), multiset(left + right);
        assert p == (p + multiset{a}) - multiset{a};
        assert q == (q + multiset{a}) - multiset{a};
      }
      TallyIgnoresOrder(init, left + right, withDistance, lo, hi);
      var tl, tr := TallyOf(left, withDistance, lo, hi), TallyOf(right, withDistance, lo, hi);
      var ta := TallyOf([a], withDistance, lo, hi);
      assert [a][..0] == [];
      TallyAppend(init, [a], withDistance, lo, hi);
      TallyAppend(left, right, withDistance, lo, hi);
      TallyAppend(left + [a], right, withDistance, lo, hi);
      TallyAppend(left, [a], withDistance, lo, hi);
      MergeAssociative(tl, tr, ta);
      MergeCommutative(tr, ta);
      MergeAssociative(tl, ta, tr);
    }
  }
}
