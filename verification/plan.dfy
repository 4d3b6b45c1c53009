/** `save_plan_to_db` up to the insert: one parsed plan becomes the nested
    weekly-plan document, with field defaults applied, fresh ids attached
    to every day and workout, and exercise names resolved to catalog ids. */
module Plan {
  import opened Base

  /** "Training plan", the name used when the plan has no `name` key. */
  const DefaultPlanName: string := "Lộ trình tập luyện"

  /** The `type` tag of every materialised plan. */
  const WeeklyType: string := "weekly"

  /** A freshly generated document id; the n-th id handed out. */
  datatype Oid = Oid(n: nat)

  /** A workout as parsed from the model's JSON. */
  datatype LogicalWorkout = LogicalWorkout(
    trainingName: Field<string>,
    time: Field<string>,
    note: Field<string>,
    order: Field<int>)

  /** A day as parsed from the model's JSON. */
  datatype LogicalDay = LogicalDay(day: Field<int>, workouts: Field<seq<LogicalWorkout>>)

  /** A plan as parsed from the model's JSON. */
  datatype LogicalPlan = LogicalPlan(
    name: Field<string>,
    description: Field<string>,
    goal: Field<string>,
    level: Field<string>,
    days: Field<seq<LogicalDay>>)

  /** A stored workout; `None` fields are stored as `null`. */
  datatype WorkoutDoc = WorkoutDoc(
    trainingId: Option<string>,
    time: Option<string>,
    note: Option<string>,
    order: Option<int>,
    id: Oid)

  /** A stored day. */
  datatype DayDoc = DayDoc(id: Oid, day: Option<int>, workouts: seq<WorkoutDoc>)

  /** A stored plan; `planType` is the document's `type` key. */
  datatype PlanDoc = PlanDoc(
    name: Option<string>,
    description: Option<string>,
    goal: Option<string>,
    level: Option<string>,
    planType: string,
    isActive: bool,
    planDays: seq<DayDoc>)

  // ---------------------------------------------------------------------------
  // Reading the parsed plan

  /** `obj.get(key, [])` for a list-valued key; `None` when the key holds
      `null`, which the loop over it then fails on. */
  function ListOr<T>(f: Field<seq<T>>): (r: Option<seq<T>>)
    ensures r.None? <==> f.Null?
    ensures f.Missing? ==> r == Some([])
    ensures f.Val? ==> r == Some(f.value)
  {
    GetOr(f, [])
  }

  /** The catalog id a workout's `trainingName` resolves to: present only
      when the name is a key of the map with a non-empty id. */
  function Resolve(name: Field<string>, ids: map<string, string>): (r: Option<string>)
    ensures r.Some? <==> name.Val? && name.value in ids && ids[name.value] != []
    ensures r.Some? ==> r.value == ids[name.value]
  {
    if name.Val? && name.value in ids && ids[name.value] != [] then Some(ids[name.value]) else None
  }

  // ---------------------------------------------------------------------------
  // The relational specification of a materialised plan

  /** A stored workout carries the resolved exercise and the workout's own
      time, note and order, each defaulted as `dict.get` does. */
  ghost predicate WorkoutMatches(w: LogicalWorkout, d: WorkoutDoc, ids: map<string, string>)
  {
    && d.trainingId == Resolve(w.trainingName, ids)
    && d.time == GetOr(w.time, "")
    && d.note == GetOr(w.note, "")
    && d.order == GetOr(w.order, 0)
  }

  /** The day's `workouts` is not `null`, and the stored day carries the
      day's ordinal (defaulting to 1) and one matching workout per parsed
      workout, in order. */
  ghost predicate DayMatches(ld: LogicalDay, dd: DayDoc, ids: map<string, string>)
  {
    && !ld.workouts.Null?
    && var ws := ListOr(ld.workouts).value;
    && dd.day == GetOr(ld.day, 1)
    && |dd.workouts| == |ws|
    && forall j :: 0 <= j < |ws| ==> WorkoutMatches(ws[j], dd.workouts[j], ids)
  }

  /** The plan materialises without raising, and the stored plan is a
      weekly, active plan with the plan's text fields (name defaulting to
      the fixed plan name, the others to "") and one matching day per
      parsed day, in order. */
  ghost predicate PlanMatches(p: LogicalPlan, doc: PlanDoc, ids: map<string, string>)
  {
    && Materialisable(p)
    && var ds := ListOr(p.days).value;
    && doc.planType == WeeklyType
    && doc.isActive
    && doc.name == GetOr(p.name, DefaultPlanName)
    && doc.description == GetOr(p.description, "")
    && doc.goal == GetOr(p.goal, "")
    && doc.level == GetOr(p.level, "")
    && |doc.planDays| == |ds|
    && forall i :: 0 <= i < |ds| ==> DayMatches(ds[i], doc.planDays[i], ids)
  }

  /** The loops over `days` and `workouts` run without raising: neither the
      plan's `days` nor any day's `workouts` is `null`. */
  predicate Materialisable(p: LogicalPlan)
  {
    !p.days.Null? && NoNullWorkouts(ListOr(p.days).value)
  }

  /** No day's `workouts` is `null`. */
  predicate NoNullWorkouts(ds: seq<LogicalDay>)
  {
    forall i :: 0 <= i < |ds| ==> !ds[i].workouts.Null?
  }

  // ---------------------------------------------------------------------------
  // Ids

  /** How many fresh ids materialising a day takes: one for the day, one per workout. */
  function DayIdCount(ld: LogicalDay): nat
  {
    1 + (if ld.workouts.Val? then |ld.workouts.value| else 0)
  }

  function DaysIdCount(ds: seq<LogicalDay>): nat
  {
    if |ds| == 0 then 0 else DayIdCount(ds[0]) + DaysIdCount(ds[1..])
  }

  /** How many fresh ids materialising a plan takes. */
  function PlanIdCount(p: LogicalPlan): nat
  {
    if p.days.Val? then DaysIdCount(p.days.value) else 0
  }

  function WorkoutIds(ws: seq<WorkoutDoc>): seq<nat>
  {
    if |ws| == 0 then [] else [ws[0].id.n] + WorkoutIds(ws[1..])
  }

  function DayIds(d: DayDoc): seq<nat>
  {
    [d.id.n] + WorkoutIds(d.workouts)
  }

  function DaysIds(ds: seq<DayDoc>): seq<nat>
  {
    if |ds| == 0 then [] else DayIds(ds[0]) + DaysIds(ds[1..])
  }

  /** Every generated id inside a stored plan, in generation order. */
  function PlanIds(doc: PlanDoc): seq<nat>
  {
    DaysIds(doc.planDays)
  }

  // ---------------------------------------------------------------------------
  // Materialising

  /** One stored workout; its id is the next fresh id. */
  function MaterialiseWorkout(w: LogicalWorkout, ids: map<string, string>, next: nat): (d: WorkoutDoc)
    ensures WorkoutMatches(w, d, ids)
    ensures d.id == Oid(next)
  {
    WorkoutDoc(Resolve(w.trainingName, ids), GetOr(w.time, ""), GetOr(w.note, ""), GetOr(w.order, 0), Oid(next))
  }

  /** The inner loop: every workout kept, in order, ids taken consecutively. */
  function MaterialiseWorkouts(ws: seq<LogicalWorkout>, ids: map<string, string>, next: nat): (r: seq<WorkoutDoc>)
    ensures |r| == |ws|
    ensures forall j :: 0 <= j < |ws| ==> WorkoutMatches(ws[j], r[j], ids)
    ensures WorkoutIds(r) == Range(next, next + |ws|)
  {
    if |ws| == 0 then []
    else
      var rest := MaterialiseWorkouts(ws[1..], ids, next + 1);
      var r := [MaterialiseWorkout(ws[0], ids, next)] + rest;
      assert r[1..] == rest;
      RangeAppend(next, next + 1, next + |ws|);
      r
  }

  /** One stored day: a fresh id, then the day's workouts. */
  function MaterialiseDay(ld: LogicalDay, ids: map<string, string>, next: nat): (r: Outcome<DayDoc>)
    ensures r.Raised? <==> ld.workouts.Null?
    ensures r.Returned? ==> DayMatches(ld, r.value, ids)
    ensures r.Returned? ==> DayIds(r.value) == Range(next, next + DayIdCount(ld))
  {
    match ListOr(ld.workouts)
    case None => Raised
    case Some(ws) =>
      var d := DayDoc(Oid(next), GetOr(ld.day, 1), MaterialiseWorkouts(ws, ids, next + 1));
      RangeAppend(next, next + 1, next + DayIdCount(ld));
      Returned(d)
  }

  /** The outer loop: one stored day per parsed day, in order; raises as
      soon as a day's `workouts` is `null`. */
  function MaterialiseDays(ds: seq<LogicalDay>, ids: map<string, string>, next: nat): (r: Outcome<seq<DayDoc>>)
    ensures r.Returned? <==> NoNullWorkouts(ds)
    ensures r.Returned? ==> |r.value| == |ds|
    ensures r.Returned? ==> forall i :: 0 <= i < |ds| ==> DayMatches(ds[i], r.value[i], ids)
    ensures r.Returned? ==> DaysIds(r.value) == Range(next, next + DaysIdCount(ds))
  {
    if |ds| == 0 then Returned([])
    else
      NullInTail(ds);
      var head := MaterialiseDay(ds[0], ids, next);
      var mid := next + DayIdCount(ds[0]);
      var tail := MaterialiseDays(ds[1..], ids, mid);
      if head.Raised? || tail.Raised? then Raised
      else
        DaysCons(ds, head.value, tail.value, ids);
        DaysConsRange(head.value, tail.value, next, mid, next + DaysIdCount(ds));
        Returned([head.value] + tail.value)
  }

  lemma NullInTail(ds: seq<LogicalDay>)
    requires |ds| > 0
    ensures NoNullWorkouts(ds) <==> !ds[0].workouts.Null? && NoNullWorkouts(ds[1..])
  {
    if !ds[0].workouts.Null? && NoNullWorkouts(ds[1..]) {
      forall i | 1 <= i < |ds| ensures !ds[i].workouts.Null? {
        assert ds[i] == ds[1..][i - 1];
      }
    }
  }

  lemma DaysCons(ds: seq<LogicalDay>, d: DayDoc, rest: seq<DayDoc>, ids: map<string, string>)
    requires |ds| > 0 && |rest| == |ds| - 1
    requires DayMatches(ds[0], d, ids)
    requires forall i :: 0 <= i < |rest| ==> DayMatches(ds[1..][i], rest[i], ids)
    ensures forall i :: 0 <= i < |ds| ==> DayMatches(ds[i], ([d] + rest)[i], ids)
  {
    forall i | 1 <= i < |ds|
      ensures DayMatches(ds[i], ([d] + rest)[i], ids)
    {
      DayMatchesShift(ds, rest, ids, d, i);
    }
  }

  lemma DaysConsRange(d: DayDoc, rest: seq<DayDoc>, lo: nat, mid: nat, hi: nat)
    requires lo <= mid <= hi
    requires DayIds(d) == Range(lo, mid) && DaysIds(rest) == Range(mid, hi)
    ensures DaysIds([d] + rest) == Range(lo, hi)
  {
    DaysConsIds(d, rest);
    RangeAppend(lo, mid, hi);
  }

  lemma DaysConsIds(d: DayDoc, rest: seq<DayDoc>)
    ensures DaysIds([d] + rest) == DayIds(d) + DaysIds(rest)
  {
    assert ([d] + rest)[1..] == rest;
  }

  lemma DayMatchesShift(ds: seq<LogicalDay>, rest: seq<DayDoc>, ids: map<string, string>, d: DayDoc, i: nat)
    requires 1 <= i < |ds| && |rest| == |ds| - 1
    requires DayMatches(ds[1..][i - 1], rest[i - 1], ids)
    ensures DayMatches(ds[i], ([d] + rest)[i], ids)
  {
    assert ds[1..][i - 1] == ds[i];
    assert ([d] + rest)[i] == rest[i - 1];
  }

  /** The document `save_plan_to_db` inserts, or `Raised` when one of its
      loops iterates over `null`. */
  function Materialise(p: LogicalPlan, ids: map<string, string>, next: nat): (r: Outcome<PlanDoc>)
    ensures r.Returned? <==> Materialisable(p)
    ensures r.Returned? ==> PlanMatches(p, r.value, ids)
    ensures r.Returned? ==> PlanIds(r.value) == Range(next, next + PlanIdCount(p))
  {
    match ListOr(p.days)
    case None => Raised
    case Some(ds) =>
      match MaterialiseDays(ds, ids, next)
      case Raised => Raised
      case Returned(days) =>
        Returned(PlanDoc(
          GetOr(p.name, DefaultPlanName),
          GetOr(p.description, ""),
          GetOr(p.goal, ""),
          GetOr(p.level, ""),
          WeeklyType,
          true,
          days))
  }

  // ---------------------------------------------------------------------------
  // Properties

  /** Every workout is kept; its exercise reference is `null` exactly when
      its name is missing or does not resolve through the map, and the
      mapped id otherwise. */
  lemma ExerciseResolution(p: LogicalPlan, ids: map<string, string>, next: nat, i: nat, j: nat)
    requires Materialisable(p)
    requires i < |ListOr(p.days).value|
    requires j < |ListOr(ListOr(p.days).value[i].workouts).value|
    ensures var doc := Materialise(p, ids, next).value;
      var w := ListOr(ListOr(p.days).value[i].workouts).value[j];
      && i < |doc.planDays| && j < |doc.planDays[i].workouts|
      && (doc.planDays[i].workouts[j].trainingId.None?
          <==> !(w.trainingName.Val? && w.trainingName.value in ids && ids[w.trainingName.value] != []))
      && (doc.planDays[i].workouts[j].trainingId.Some?
          ==> doc.planDays[i].workouts[j].trainingId.value == ids[w.trainingName.value])
  {
  }

  /** The ids inside one materialised plan are pairwise distinct. */
  lemma MaterialisedIdsDistinct(p: LogicalPlan, ids: map<string, string>, next: nat)
    requires Materialisable(p)
    ensures Distinct(PlanIds(Materialise(p, ids, next).value))
  {
  }

  /** A day referring to an exercise the catalog lacks: the workout is
      stored with a `null` exercise and its other fields copied. */
  lemma UnknownDrill(ids: map<string, string>)
    requires "Unknown Drill" !in ids
    ensures var w := LogicalWorkout(Val("Unknown Drill"), Val("18:00"), Missing, Val(1));
      var p := LogicalPlan(Val("Basic"), Missing, Missing, Missing, Val([LogicalDay(Val(1), Val([w]))]));
      var r := Materialise(p, ids, 0);
      && r.Returned?
      && r.value.name == Some("Basic") && r.value.description == Some("")
      && |r.value.planDays| == 1 && r.value.planDays[0].day == Some(1)
      && |r.value.planDays[0].workouts| == 1
      && r.value.planDays[0].workouts[0].trainingId == None
      && r.value.planDays[0].workouts[0].time == Some("18:00")
      && r.value.planDays[0].workouts[0].note == Some("")
      && r.value.planDays[0].workouts[0].order == Some(1)
  {
    var w := LogicalWorkout(Val("Unknown Drill"), Val("18:00"), Missing, Val(1));
    var d := LogicalDay(Val(1), Val([w]));
    var p := LogicalPlan(Val("Basic"), Missing, Missing, Missing, Val([d]));
    assert Materialisable(p);
    assert WorkoutMatches(w, Materialise(p, ids, 0).value.planDays[0].workouts[0], ids);
  }
}
