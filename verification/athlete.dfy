/** The athlete aggregate: activities stored per class and start time, goals
    stored per variant and (metric, timeframe), and the queries over them. */
module Athletes {
  import opened Wrappers
  import opened Dates
  import opened Dicts
  import opened Activities
  import opened Goals
  import Helpers

  /** The activities of one class, keyed by start time */
  type Store = Dict<DateTime, Activity>

  /** The goals of one variant, keyed by (metric, timeframe) */
  type GoalStore = Dict<GoalKey, Goal>

  /** The outer activity dictionary only ever holds the five subclasses, in
      the order `Athlete.__init__` inserts them, followed, once a base-class
      `Activity` has been added, by an `Activity: None` entry that the
      `defaultdict(none_factory)` creates on lookup.  `stores` holds the
      five inner dictionaries and `poisoned` records the trailing entry. */
  datatype Athlete = Athlete(stores: map<Variant, Store>, poisoned: bool, goals: map<Variant, GoalStore>)

  /** Every variant has an inner activity and goal dictionary, and each is a
      well-formed dictionary: what holds in every reachable state */
  predicate Shaped(ath: Athlete) {
    && (forall v: Variant :: v in ath.stores && v in ath.goals)
    && (forall v | v in ath.stores :: ath.stores[v].Valid() && StartsValid(ath.stores[v]))
    && (forall v | v in ath.goals :: ath.goals[v].Valid())
  }

  /** Every stored activity starts at a real date and time, as the
      `Activity` constructor guarantees */
  predicate StartsValid(s: Store) {
    forall t | t in s.entries :: ValidDateTime(s.entries[t].start)
  }

  /** Every activity is filed under its own class and start time */
  predicate StoreOk(k: Kind, s: Store) {
    && s.Valid()
    && forall t | t in s.entries :: s.entries[t].start == t && KindOf(s.entries[t]) == k
  }

  /** Every goal is filed under its own variant and key and is valid */
  predicate GoalStoreOk(v: Variant, g: GoalStore) {
    && g.Valid()
    && forall key | key in g.entries ::
         g.entries[key].variant == v && KeyOf(g.entries[key]) == key && ValidGoal(g.entries[key])
  }

  /** The state `Athlete.__init__` sets up and the intended operations keep:
      no base-class entry, and consistent filing */
  predicate WellFormed(ath: Athlete) {
    && Shaped(ath)
    && !ath.poisoned
    && (forall v | v in ath.stores :: StoreOk(v, ath.stores[v]))
    && (forall v | v in ath.goals :: GoalStoreOk(v, ath.goals[v]))
  }

  /** `Athlete()` */
  function NewAthlete(): (ath: Athlete)
    ensures WellFormed(ath)
    ensures forall v | v in ath.stores :: ath.stores[v].entries == map[]
    ensures forall v | v in ath.goals :: ath.goals[v].entries == map[]
  {
    var all: set<Variant> := {Cycle, Run, Tennis, Walk, Workout};
    Athlete(map v | v in all :: Empty(), false, map v | v in all :: Empty())
  }

  /** Files a fresh activity under its variant and start */
  function Insert(ath: Athlete, v: Variant, a: Activity): (r: Athlete)
    requires Shaped(ath) && ValidDateTime(a.start) && a.start !in ath.stores[v].entries
    ensures Shaped(r) && r.goals == ath.goals && r.poisoned == ath.poisoned
    ensures r.stores.Keys == ath.stores.Keys
    ensures forall w | w in ath.stores && w != v :: r.stores[w] == ath.stores[w]
    ensures r.stores[v].entries == ath.stores[v].entries[a.start := a]
    ensures r.stores[v].Values() == ath.stores[v].Values() + [a]
  {
    var store := ath.stores[v].Put(a.start, a);
    ath.stores[v].PutValues(a.start, a);
    StartsValidPut(ath.stores[v], a);
    ShapedWithStore(ath, v, store);
    ath.(stores := ath.stores[v := store])
  }

  lemma StartsValidPut(s: Store, a: Activity)
    requires s.Valid() && StartsValid(s) && ValidDateTime(a.start)
    ensures StartsValid(s.Put(a.start, a))
  {
  }

  /** Replacing one variant's store by a valid one keeps the athlete shaped */
  lemma ShapedWithStore(ath: Athlete, v: Variant, store: Store)
    requires Shaped(ath) && store.Valid() && StartsValid(store)
    ensures Shaped(ath.(stores := ath.stores[v := store]))
  {
  }

  /** The result of a call that may raise after changing the state */
  datatype Outcome = Outcome(after: Athlete, raised: Option<Error>)

  /** `add_activity` as written.  Looking up the base class in the outer
      `defaultdict` inserts `None` for it, and subscripting that `None`
      raises `TypeError`; so adding a base-class `Activity` fails and leaves
      the `None` entry behind.  An activity of a subclass is stored unless
      its start is taken. */
  function AddActivityAsWritten(ath: Athlete, a: Activity): (o: Outcome)
    requires Shaped(ath) && ValidDateTime(a.start)
    ensures Shaped(o.after) && o.after.goals == ath.goals
    ensures o.raised.Some? <==> KindOf(a) == Base
    ensures o.after.poisoned <==> ath.poisoned || KindOf(a) == Base
    ensures KindOf(a) != Base ==> AddActivity(ath, a).Success? && o == Outcome(AddActivity(ath, a).value, None)
  {
    match KindOf(a)
    case Base => Outcome(ath.(poisoned := true), Some(TypeError("activities")))
    case _ =>
      var v: Variant := KindOf(a);
      var store := ath.stores[v];
      if a.start in store.entries then Outcome(ath, None)
      else Outcome(Insert(ath, v, a), None)
  }

  /** `add_activity` as it is evidently meant to behave: an activity of one
      of the five subclasses is added unless its class already holds an
      activity with the same start (first write wins, the later one is
      silently dropped); a base-class activity is refused with no change. */
  function AddActivity(ath: Athlete, a: Activity): (r: Result<Athlete>)
    requires Shaped(ath) && ValidDateTime(a.start)
    ensures r.Success? <==> KindOf(a) != Base
    ensures r.Success? ==> && Shaped(r.value)
                           && r.value.goals == ath.goals
                           && r.value.poisoned == ath.poisoned
    ensures r.Success? ==> forall v | v in ath.stores && v != KindOf(a) :: r.value.stores[v] == ath.stores[v]
    ensures r.Success? ==>
      var before := ath.stores[KindOf(a)].entries;
      r.value.stores[KindOf(a)].entries == if a.start in before then before else before[a.start := a]
  {
    match KindOf(a)
    case Base => Failure(TypeError("activities"))
    case _ =>
      var v: Variant := KindOf(a);
      var store := ath.stores[v];
      if a.start in store.entries then Success(ath)
      else Success(Insert(ath, v, a))
  }

  /** Adding an activity keeps the athlete well-formed */
  lemma AddActivityKeepsWellFormed(ath: Athlete, a: Activity)
    requires WellFormed(ath) && ValidDateTime(a.start) && KindOf(a) != Base
    ensures WellFormed(AddActivity(ath, a).value)
  {
    var v: Variant := KindOf(a);
    var store := ath.stores[v];
    if a.start !in store.entries {
      assert StoreOk(v, Insert(ath, v, a).stores[v]);
    }
  }

  /** The inner dictionaries of `vs`, their values concatenated in order */
  function AllValues(stores: map<Variant, Store>, vs: seq<Variant>): (r: seq<Activity>)
    requires forall i | 0 <= i < |vs| :: vs[i] in stores && stores[vs[i]].Valid()
    ensures forall a :: a in r <==> exists i | 0 <= i < |vs| :: a in stores[vs[i]].Values()
  {
    if vs == [] then []
    else
      assert forall i | 1 <= i < |vs| :: vs[i] == vs[1..][i - 1];
      stores[vs[0]].Values() + AllValues(stores, vs[1..])
  }

  /** `get_activities(activity_subclass)`: the activities of one subclass in
      insertion order, or of every class, subclass by subclass, when no
      filter is given.  The base class is not a subclass and is refused; the
      unfiltered listing raises `AttributeError` (`None.values()`) once a
      base-class entry exists. */
  function GetActivities(ath: Athlete, filter: Option<Kind>): (r: Result<seq<Activity>>)
    requires Shaped(ath)
    ensures filter == Some(Base) ==> r == Failure(ValueError("activity_subclass"))
    ensures filter.Some? && filter.value != Base ==> r == Success(ath.stores[filter.value].Values())
    ensures filter.None? ==> (r.Failure? <==> ath.poisoned)
    ensures filter.None? && r.Failure? ==> r.error == AttributeError("values")
    ensures filter.None? && r.Success? ==> forall a :: a in r.value <==>
      exists i | 0 <= i < |Variants| :: a in ath.stores[Variants[i]].Values()
  {
    match filter
    case Some(k) =>
      if k == Base then Failure(ValueError("activity_subclass"))
      else Success(ath.stores[k].Values())
    case None =>
      if ath.poisoned then Failure(AttributeError("values"))
      else Success(AllValues(ath.stores, Variants))
  }

  /** On a well-formed athlete the unfiltered listing is exactly the union of
      the five per-variant listings */
  lemma AllActivitiesIsUnion(ath: Athlete, a: Activity)
    requires WellFormed(ath)
    ensures GetActivities(ath, None).Success?
    ensures a in GetActivities(ath, None).value <==>
      exists v: Variant :: a in GetActivities(ath, Some(v)).value
  {
    var all := GetActivities(ath, None).value;
    if a in all {
      var i :| 0 <= i < |Variants| && a in ath.stores[Variants[i]].Values();
      assert a in GetActivities(ath, Some(Variants[i])).value;
    }
    if exists v: Variant :: a in GetActivities(ath, Some(v)).value {
      var v: Variant :| a in GetActivities(ath, Some(v)).value;
      var i := VariantIndex(v);
      assert a in ath.stores[Variants[i]].Values();
    }
  }

  /** Adding a base-class activity, as written, raises and leaves the
      athlete unable to list all its activities, whatever it held */
  lemma BaseActivityBreaksListing(ath: Athlete, a: Activity)
    requires Shaped(ath) && ValidDateTime(a.start) && KindOf(a) == Base
    ensures var o := AddActivityAsWritten(ath, a);
            && o.raised == Some(TypeError("activities"))
            && GetActivities(o.after, None) == Failure(AttributeError("values"))
  {
  }

  /** The evidently intended behaviour: a base-class activity is refused
      and every listing of the unchanged athlete still works */
  lemma RefusedActivityChangesNothing(ath: Athlete, a: Activity)
    requires WellFormed(ath) && ValidDateTime(a.start) && KindOf(a) == Base
    ensures AddActivity(ath, a).Failure?
    ensures GetActivities(ath, None).Success?
  {
  }

  /** Adding a fresh activity appends it to its variant's listing; adding
      one whose start is taken changes nothing */
  lemma AddActivityListing(ath: Athlete, a: Activity)
    requires Shaped(ath) && ValidDateTime(a.start) && KindOf(a) != Base
    ensures var r := AddActivity(ath, a);
            var before := GetActivities(ath, Some(KindOf(a))).value;
            && r.Success?
            && GetActivities(r.value, Some(KindOf(a))).value
               == if a.start in ath.stores[KindOf(a)].entries then before else before + [a]
  {
  }

  /** First write wins: of two activities of one class with the same start,
      the one added first is kept */
  lemma FirstWriteWins(ath: Athlete, a: Activity, b: Activity)
    requires Shaped(ath) && ValidDateTime(a.start) && KindOf(a) != Base
    requires KindOf(b) == KindOf(a) && b.start == a.start
    ensures var r := AddActivity(ath, a);
            var kept := if a.start in ath.stores[KindOf(a)].entries then ath.stores[KindOf(a)].entries[a.start] else a;
            && AddActivity(r.value, b) == r
            && r.value.stores[KindOf(a)].entries[a.start] == kept
  {
  }

  /** The goal dictionaries of `vs`, their values concatenated in order */
  function GoalValues(goals: map<Variant, GoalStore>, vs: seq<Variant>): (r: seq<Goal>)
    requires forall i | 0 <= i < |vs| :: vs[i] in goals && goals[vs[i]].Valid()
    ensures forall g :: g in r <==> exists i | 0 <= i < |vs| :: g in goals[vs[i]].Values()
  {
    if vs == [] then []
    else
      assert forall i | 1 <= i < |vs| :: vs[i] == vs[1..][i - 1];
      goals[vs[0]].Values() + GoalValues(goals, vs[1..])
  }

  /** `get_goals(activity_subclass)`: the goals of one subclass in insertion
      order, or of all five, subclass by subclass, when no filter is given */
  function GetGoals(ath: Athlete, filter: Option<Kind>): (r: Result<seq<Goal>>)
    requires Shaped(ath)
    ensures r.Failure? <==> filter == Some(Base)
    ensures filter.Some? && r.Success? ==> r.value == ath.goals[filter.value].Values()
    ensures filter.None? ==> forall g :: g in r.value <==>
      exists i | 0 <= i < |Variants| :: g in ath.goals[Variants[i]].Values()
  {
    match filter
    case Some(k) =>
      if k == Base then Failure(ValueError("activity_subclass"))
      else Success(ath.goals[k].Values())
    case None => Success(GoalValues(ath.goals, Variants))
  }

  /** `add_goal`: the exercise, timeframe and metric names are checked in
      that order, the goal of the timeframe's class is built, and it replaces
      any goal of that variant under the same (metric, timeframe) */
  function AddGoal(ath: Athlete, exercise: string, metric: string, timeframe: string, target: int): (r: Result<Athlete>)
    requires Shaped(ath)
    ensures r.Success? <==> && exercise in VariantNames && timeframe in TimeframeNames
                            && metric in MetricNames
                            && !(metric == "distance" && VariantNamed(exercise).value in {Tennis, Workout})
                            && target > 0
    ensures r.Success? ==>
      var v := VariantNamed(exercise).value;
      var g := Goal(v, MetricNamed(metric).value, TimeframeNamed(timeframe).value, target);
      && ValidGoal(g)
      && r.value.stores == ath.stores && r.value.poisoned == ath.poisoned
      && r.value.goals == ath.goals[v := ath.goals[v].Put(KeyOf(g), g)]
      && r.value.goals[v].entries == ath.goals[v].entries[KeyOf(g) := g]
  {
    var v :- match VariantNamed(exercise)
             case None => Failure(ValueError("exercise"))
             case Some(v) => Success(v);
    var tf :- match TimeframeNamed(timeframe)
              case None => Failure(ValueError("timeframe"))
              case Some(tf) => Success(tf);
    var _ :- Check(metric in MetricNames, ValueError("metric"));
    var g :- MakeGoal(v, tf, metric, target);
    Success(ath.(goals := ath.goals[v := ath.goals[v].Put(KeyOf(g), g)]))
  }

  /** Adding a goal keeps the athlete well-formed */
  lemma AddGoalKeepsWellFormed(ath: Athlete, exercise: string, metric: string, timeframe: string, target: int)
    requires WellFormed(ath) && AddGoal(ath, exercise, metric, timeframe, target).Success?
    ensures WellFormed(AddGoal(ath, exercise, metric, timeframe, target).value)
  {
    var v := VariantNamed(exercise).value;
    var after := AddGoal(ath, exercise, metric, timeframe, target).value;
    assert GoalStoreOk(v, after.goals[v]);
  }

  /** Latest write wins: after two goals for the same exercise, metric and
      timeframe only the second is stored under that key */
  lemma GoalReplaced(ath: Athlete, exercise: string, metric: string, timeframe: string, t1: int, t2: int)
    requires Shaped(ath)
    requires AddGoal(ath, exercise, metric, timeframe, t1).Success?
    requires t2 > 0
    ensures var once := AddGoal(ath, exercise, metric, timeframe, t1).value;
            var twice := AddGoal(once, exercise, metric, timeframe, t2);
            var v := VariantNamed(exercise).value;
            var key := GoalKey(MetricNamed(metric).value, TimeframeNamed(timeframe).value);
            && twice.Success?
            && twice.value.goals[v].entries == ath.goals[v].entries[key := twice.value.goals[v].entries[key]]
            && twice.value.goals[v].entries[key].target == t2
  {
  }

  /** `delete_goal`: the exercise name is checked; the (metric, timeframe)
      entry is removed if present, and nothing happens otherwise, including
      for metric or timeframe names that no goal can have */
  function DeleteGoal(ath: Athlete, exercise: string, metric: string, timeframe: string): (r: Result<Athlete>)
    requires Shaped(ath)
    ensures r.Success? <==> exercise in VariantNames
    ensures r.Success? ==>
      var v := VariantNamed(exercise).value;
      && r.value.stores == ath.stores && r.value.poisoned == ath.poisoned
      && r.value.goals.Keys == ath.goals.Keys
      && (forall w | w in ath.goals && w != v :: r.value.goals[w] == ath.goals[w])
      && (forall key | key in r.value.goals[v].entries ::
            key in ath.goals[v].entries && r.value.goals[v].entries[key] == ath.goals[v].entries[key])
  {
    match VariantNamed(exercise)
    case None => Failure(ValueError("exercise"))
    case Some(v) =>
      var store := ath.goals[v];
      var kept := if MetricNamed(metric).Some? && TimeframeNamed(timeframe).Some?
                  then store.Pop(GoalKey(MetricNamed(metric).value, TimeframeNamed(timeframe).value))
                  else store;
      Success(ath.(goals := ath.goals[v := kept]))
  }

  /** Deleting a goal keeps the athlete well-formed */
  lemma DeleteGoalKeepsWellFormed(ath: Athlete, exercise: string, metric: string, timeframe: string)
    requires WellFormed(ath) && exercise in VariantNames
    ensures WellFormed(DeleteGoal(ath, exercise, metric, timeframe).value)
  {
    var v := VariantNamed(exercise).value;
    var after := DeleteGoal(ath, exercise, metric, timeframe).value;
    assert GoalStoreOk(v, after.goals[v]);
  }

  /** A stored goal is gone after deleting it by its names, and every other
      goal stays */
  lemma DeleteGoalRemoves(ath: Athlete, exercise: string, metric: string, timeframe: string, key: GoalKey)
    requires Shaped(ath) && exercise in VariantNames
    requires key in ath.goals[VariantNamed(exercise).value].entries
    ensures var r := DeleteGoal(ath, exercise, metric, timeframe);
            var v := VariantNamed(exercise).value;
            && r.Success?
            && (key in r.value.goals[v].entries <==>
                 !(MetricName(key.metric) == metric && TimeframeName(key.timeframe) == timeframe))
  {
    NamesRoundTrip(key.metric, key.timeframe);
  }

  /** Deleting a goal just added with the same names gives back the athlete
      as it was, listing order included, when no goal was stored under that
      key before */
  lemma DeleteUndoesAdd(ath: Athlete, exercise: string, metric: string, timeframe: string, target: int)
    requires Shaped(ath)
    requires AddGoal(ath, exercise, metric, timeframe, target).Success?
    requires GoalKey(MetricNamed(metric).value, TimeframeNamed(timeframe).value)
             !in ath.goals[VariantNamed(exercise).value].entries
    ensures var added := AddGoal(ath, exercise, metric, timeframe, target).value;
            var r := DeleteGoal(added, exercise, metric, timeframe);
            r == Success(ath)
  {
    var v := VariantNamed(exercise).value;
    var key := GoalKey(MetricNamed(metric).value, TimeframeNamed(timeframe).value);
    var g := Goal(v, MetricNamed(metric).value, TimeframeNamed(timeframe).value, target);
    AddGoalPuts(ath, exercise, metric, timeframe, target);
    var added := AddGoal(ath, exercise, metric, timeframe, target).value;
    DeleteGoalPops(added, exercise, metric, timeframe);
    PutThenPopGoals(ath, v, key, g);
  }

  /** Storing a goal under a new key and popping that key gives back the
      athlete */
  lemma PutThenPopGoals(ath: Athlete, v: Variant, key: GoalKey, g: Goal)
    requires v in ath.goals && ath.goals[v].Valid() && key !in ath.goals[v].entries
    ensures var added := ath.(goals := ath.goals[v := ath.goals[v].Put(key, g)]);
            added.(goals := added.goals[v := added.goals[v].Pop(key)]) == ath
  {
    ath.goals[v].PutThenPop(key, g);
    assert ath.goals[v := ath.goals[v]] == ath.goals;
  }

  /** An accepted goal is put under its key in its variant's dictionary */
  lemma AddGoalPuts(ath: Athlete, exercise: string, metric: string, timeframe: string, target: int)
    requires Shaped(ath) && AddGoal(ath, exercise, metric, timeframe, target).Success?
    ensures var v := VariantNamed(exercise).value;
            var g := Goal(v, MetricNamed(metric).value, TimeframeNamed(timeframe).value, target);
            && KeyOf(g) == GoalKey(MetricNamed(metric).value, TimeframeNamed(timeframe).value)
            && Shaped(AddGoal(ath, exercise, metric, timeframe, target).value)
            && AddGoal(ath, exercise, metric, timeframe, target).value
               == ath.(goals := ath.goals[v := ath.goals[v].Put(KeyOf(g), g)])
  {
  }

  /** Deleting by a metric and timeframe that name a key pops that key */
  lemma DeleteGoalPops(ath: Athlete, exercise: string, metric: string, timeframe: string)
    requires Shaped(ath) && exercise in VariantNames
    requires MetricNamed(metric).Some? && TimeframeNamed(timeframe).Some?
    ensures var v := VariantNamed(exercise).value;
            var key := GoalKey(MetricNamed(metric).value, TimeframeNamed(timeframe).value);
            DeleteGoal(ath, exercise, metric, timeframe) == Success(ath.(goals := ath.goals[v := ath.goals[v].Pop(key)]))
  {
  }

  /** A goal under a new key is listed after the variant's earlier goals;
      one under a taken key replaces its predecessor in place */
  lemma AddGoalListing(ath: Athlete, exercise: string, metric: string, timeframe: string, target: int)
    requires Shaped(ath) && AddGoal(ath, exercise, metric, timeframe, target).Success?
    ensures var v := VariantNamed(exercise).value;
            var g := Goal(v, MetricNamed(metric).value, TimeframeNamed(timeframe).value, target);
            var before := GetGoals(ath, Some(v)).value;
            var after := GetGoals(AddGoal(ath, exercise, metric, timeframe, target).value, Some(v)).value;
            && (KeyOf(g) !in ath.goals[v].entries ==> after == before + [g])
            && (KeyOf(g) in ath.goals[v].entries ==> |after| == |before| && g in after)
  {
    var v := VariantNamed(exercise).value;
    var g := Goal(v, MetricNamed(metric).value, TimeframeNamed(timeframe).value, target);
    ath.goals[v].PutValues(KeyOf(g), g);
    var d := ath.goals[v].Put(KeyOf(g), g);
    if KeyOf(g) in ath.goals[v].entries {
      var i :| 0 <= i < |d.order| && d.order[i] == KeyOf(g);
      assert d.Values()[i] == g;
    }
  }

  /** The earliest start among some activities, `min(...)`, or `None` */
  function EarliestStart(acts: seq<Activity>): (r: Option<DateTime>)
    ensures r.None? <==> acts == []
    ensures r.Some? ==> exists i | 0 <= i < |acts| :: acts[i].start == r.value
    ensures r.Some? ==> forall i | 0 <= i < |acts| :: Le(r.value, acts[i].start)
  {
    if acts == [] then None
    else
      match EarliestStart(acts[1..])
      case None => Some(acts[0].start)
      case Some(t) =>
        LeTotalOrder(acts[0].start, t, acts[0].start);
        assert forall i | 1 <= i < |acts| :: acts[i] == acts[1..][i - 1];
        if Le(acts[0].start, t) then
          forall i | 1 <= i < |acts|
            ensures Le(acts[0].start, acts[i].start)
          {
            LeTotalOrder(acts[0].start, t, acts[i].start);
          }
          Some(acts[0].start)
        else Some(t)
  }

  /** `earliest_activity(exercise)`: the minimum start among that
      variant's activities, `None` when it has none; an unknown name raises
      `KeyError` */
  function EarliestActivity(ath: Athlete, exercise: string): (r: Result<Option<DateTime>>)
    requires Shaped(ath)
    ensures r.Failure? <==> exercise !in VariantNames
    ensures r.Failure? ==> r.error == KeyError(exercise)
    ensures r.Success? && r.value.Some? ==> ValidDateTime(r.value.value)
  {
    match VariantNamed(exercise)
    case None => Failure(KeyError(exercise))
    case Some(v) =>
      var store := ath.stores[v];
      var first := EarliestStart(store.Values());
      assert first.Some? ==> ValidDateTime(first.value) by {
        if first.Some? {
          var i :| 0 <= i < |store.order| && store.Values()[i].start == first.value;
          assert store.order[i] in store.entries;
        }
      }
      Success(first)
  }

  /** The earliest activity's start is a stored start no later than any
      other, and there is none exactly when the variant has no activities */
  lemma EarliestActivityIsMinimum(ath: Athlete, exercise: string)
    requires WellFormed(ath) && exercise in VariantNames
    ensures var store := ath.stores[VariantNamed(exercise).value];
            var r := EarliestActivity(ath, exercise).value;
            && (r.None? <==> store.entries == map[])
            && (r.Some? ==> r.value in store.entries && forall t | t in store.entries :: Le(r.value, t))
  {
    var v := VariantNamed(exercise).value;
    var store := ath.stores[v];
    var acts := store.Values();
    assert StoreOk(v, store);
    if acts == [] {
      assert store.order == [];
    } else {
      assert store.order[0] in store.entries;
    }
    forall t | t in store.entries
      ensures exists i | 0 <= i < |acts| :: acts[i].start == t
    {
      var i :| 0 <= i < |store.order| && store.order[i] == t;
      assert acts[i].start == t;
    }
  }

  /** The activities of a variant tallied over the window [lo, hi] */
  function TallyWindow(ath: Athlete, v: Variant, lo: Date, hi: Date): (r: Tally)
    requires Shaped(ath)
    ensures r.distance.Some? <==> HasDistance(v)
    ensures r.count <= |ath.stores[v].order|
  {
    TallyOf(ath.stores[v].Values(), HasDistance(v), lo, hi)
  }

  /** `Activity.tally(athlete, class_name, start, end)` with `today` for
      `date.today()`: the class name must be a subclass name; the window runs
      from `start` (default 1970-01-01) to `end` (default today), both parsed
      as `YYYY-MM-DD` */
  function TallyOfClass(ath: Athlete, className: string, start: Option<string>, end: Option<string>, today: Date): (r: Result<Tally>)
    requires Shaped(ath)
    ensures r.Success? <==> && className in VariantNames
                            && (start.Some? ==> Helpers.IsDate(start.value))
                            && (end.Some? ==> Helpers.IsDate(end.value))
    ensures className !in VariantNames ==> r == Failure(ValueError("class_name"))
    ensures r.Success? ==> (r.value.distance.Some? <==> className in ["Cycle", "Run", "Walk"])
  {
    var v :- match VariantNamed(className)
             case None => Failure(ValueError("class_name"))
             case Some(v) => Success(v);
    var lo :- DateArgument(start, Epoch);
    var hi :- DateArgument(end, today);
    Success(TallyWindow(ath, v, lo, hi))
  }

  /** An optional `YYYY-MM-DD` argument with its default */
  function DateArgument(s: Option<string>, default: Date): (r: Result<Date>)
    ensures r.Success? <==> s.None? || Helpers.IsDate(s.value)
    ensures s.None? ==> r == Success(default)
    ensures r.Success? ==> ValidDate(r.value) || s.None?
  {
    match s
    case None => Success(default)
    case Some(text) =>
      match Helpers.ParseDate(text)
      case None => Failure(ValueError("date"))
      case Some(d) => Success(d)
  }

  /** The keys of a variant's activities whose date lies in [lo, hi] */
  function WindowKeys(store: Store, lo: Date, hi: Date): set<DateTime> {
    set t | t in store.entries && InWindow(t.date, lo, hi)
  }

  /** The tally's count is the number of that variant's activities whose
      start date lies in the window, both ends included */
  lemma TallyCountsStored(ath: Athlete, v: Variant, lo: Date, hi: Date)
    requires WellFormed(ath)
    ensures TallyWindow(ath, v, lo, hi).count == |WindowKeys(ath.stores[v], lo, hi)|
  {
    var store := ath.stores[v];
    var acts := store.Values();
    assert StoreOk(v, store);
    forall i, j | 0 <= i < j < |acts|
      ensures acts[i].start != acts[j].start
    {
      assert acts[i].start == store.order[i] && acts[j].start == store.order[j];
    }
    TallyCountsWindow(acts, HasDistance(v), lo, hi);
    forall t
      ensures t in WindowStarts(acts, lo, hi) <==> t in WindowKeys(store, lo, hi)
    {
      if t in WindowKeys(store, lo, hi) {
        var i :| 0 <= i < |store.order| && store.order[i] == t;
        assert acts[i] in acts && acts[i].start == t;
      }
    }
    assert WindowStarts(acts, lo, hi) == WindowKeys(store, lo, hi);
  }
}
