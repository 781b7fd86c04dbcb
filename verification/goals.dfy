/** Sleep goals (src/components/SleepGoals.tsx): the four default goals, the
    recomputation of each goal's current value from the session list, target
    edits, and the progress percentage and completion test the goal cards
    show. */
module Goals {
  import opened Numbers
  import opened Seqs
  import opened Sessions
  import opened Streaks

  datatype GoalType = Duration | Quality | Consistency | Streak

  /** `target` and `current` are JavaScript numbers; `current` of a quality
      goal is a mean rounded to tenths, so both are reals. */
  datatype Goal = Goal(id: string, kind: GoalType, target: real, current: real, unit: string)

  const DefaultGoals: seq<Goal> := [
    Goal("1", Duration, 480.0, 0.0, "minutes"),
    Goal("2", Quality, 4.0, 0.0, "rating"),
    Goal("3", Consistency, 7.0, 0.0, "days"),
    Goal("4", Streak, 7.0, 0.0, "days")
  ]

  /** The seeding effect: an empty goal list gets the four defaults (8 hours,
      quality 4, 7 days, 7 days), any other list is kept. */
  function SeedGoals(gs: seq<Goal>): (r: seq<Goal>)
    ensures |gs| > 0 ==> r == gs
    ensures |gs| == 0 ==> r == DefaultGoals
    ensures |gs| == 0 ==> forall i, j :: 0 <= i < j < |r| ==> r[i].id != r[j].id
    ensures |gs| == 0 ==> |r| == 4 && forall i :: 0 <= i < 4 ==> r[i].current == 0.0 && r[i].target > 0.0
    ensures |gs| == 0 ==> r[0].kind == Duration && r[0].target == 480.0 && r[1].kind == Quality && r[1].target == 4.0
    ensures |gs| == 0 ==> r[2].kind == Consistency && r[2].target == 7.0 && r[3].kind == Streak && r[3].target == 7.0
  {
    if |gs| == 0 then DefaultGoals else gs
  }

  /** The value one goal shows for a non-empty session list. */
  function CurrentFor(kind: GoalType, ss: seq<Session>): real
  {
    match kind
    case Duration => Round(WindowMeanDuration(ss, 7)) as real
    case Quality => RoundTenths(WindowMeanQuality(ss, 7))
    case Consistency => ConsecutiveDays(ss, Unbounded) as real
    case Streak => ConsecutiveDays(ss, Unbounded) as real
  }

  /** The progress effect: without sessions or goals nothing changes;
      otherwise each goal keeps its id, type, target and unit and gets a new
      current value from the last seven sessions (duration: mean to the
      nearest minute; quality: mean to a tenth) or from the uncapped day
      streak (consistency and streak goals alike). */
  function Recompute(ss: seq<Session>, gs: seq<Goal>): (r: seq<Goal>)
    ensures |ss| == 0 ==> r == gs
    ensures |r| == |gs|
    ensures forall i :: 0 <= i < |gs| ==>
      r[i].id == gs[i].id && r[i].kind == gs[i].kind && r[i].target == gs[i].target && r[i].unit == gs[i].unit
    ensures |ss| > 0 ==> forall i :: 0 <= i < |gs| && gs[i].kind == Duration ==>
      Abs(r[i].current - WindowMeanDuration(ss, 7)) <= 0.5 && r[i].current.Floor as real == r[i].current
    ensures |ss| > 0 ==> forall i :: 0 <= i < |gs| && gs[i].kind == Quality ==>
      Abs(r[i].current - WindowMeanQuality(ss, 7)) <= 0.05
    ensures |ss| > 0 ==> forall i :: 0 <= i < |gs| && gs[i].kind in {Consistency, Streak} ==>
      1.0 <= r[i].current <= |ss| as real
    ensures |ss| > 0 ==> forall i :: 0 <= i < |gs| ==>
      match gs[i].kind
      case Duration => r[i].current == Round(WindowMeanDuration(ss, 7)) as real
      case Quality => r[i].current == RoundTenths(WindowMeanQuality(ss, 7))
      case _ => r[i].current == ConsecutiveDays(ss, Unbounded) as real
  {
    if |ss| == 0 || |gs| == 0 then gs
    else seq(|gs|, i requires 0 <= i < |gs| => gs[i].(current := CurrentFor(gs[i].kind, ss)))
  }

  /** Recomputing twice from the same sessions gives what recomputing once
      gave: the new values depend only on the sessions and the goal type. */
  lemma RecomputeIdempotent(ss: seq<Session>, gs: seq<Goal>)
    ensures Recompute(ss, Recompute(ss, gs)) == Recompute(ss, gs)
  {
    var once := Recompute(ss, gs);
    var twice := Recompute(ss, once);
    assert forall i :: 0 <= i < |once| ==> twice[i] == once[i];
  }

  /** The streak and consistency goals both show the length of the run of
      consecutive calendar days ending on the latest logged day. */
  lemma RecomputeStreakIsRun(ss: seq<Session>, gs: seq<Goal>, i: int)
    requires |ss| > 0 && DaysAgree(ss)
    requires 0 <= i < |gs| && gs[i].kind in {Consistency, Streak}
    ensures exists k: nat :: k as real == Recompute(ss, gs)[i].current && IsRun(DaysOf(ss), LatestDay(ss), k)
  {
    StreakIsRun(ss);
    var k := ConsecutiveDays(ss, Unbounded);
    assert k as real == Recompute(ss, gs)[i].current;
  }

  /** `updateGoal`: the goal with the given id gets the new target; nothing
      else changes. */
  function UpdateTarget(gs: seq<Goal>, id: string, target: real): (r: seq<Goal>)
    ensures |r| == |gs|
    ensures forall i :: 0 <= i < |gs| ==>
      r[i] == if gs[i].id == id then gs[i].(target := target) else gs[i]
  {
    seq(|gs|, i requires 0 <= i < |gs| => if gs[i].id == id then gs[i].(target := target) else gs[i])
  }

  /** The seeded ids are distinct, so editing a seeded goal's target by its
      id changes that goal alone. */
  lemma SeededTargetEdit(k: int, target: real)
    requires 0 <= k < 4
    ensures UpdateTarget(SeedGoals([]), DefaultGoals[k].id, target) ==
      DefaultGoals[k := DefaultGoals[k].(target := target)]
  {
  }

  /** Updating the same goal twice keeps only the second target. */
  lemma UpdateTargetLastWins(gs: seq<Goal>, id: string, t1: real, t2: real)
    ensures UpdateTarget(UpdateTarget(gs, id, t1), id, t2) == UpdateTarget(gs, id, t2)
  {
    var a := UpdateTarget(UpdateTarget(gs, id, t1), id, t2);
    var b := UpdateTarget(gs, id, t2);
    assert forall i :: 0 <= i < |gs| ==> a[i] == b[i];
  }

  /** A JavaScript number as a percentage: a finite value, or what a
      division by a zero target produces. */
  datatype Percent = Pct(value: real) | PlusInfinity | MinusInfinity | NotANumber

  /** `Math.min(p, 100)` on a JavaScript number: NaN stays NaN. */
  function CapPercent(p: Percent): (r: Percent)
    ensures p.Pct? ==> r == Pct(MinReal(p.value, 100.0))
    ensures p.PlusInfinity? ==> r == Pct(100.0)
    ensures !p.Pct? && !p.PlusInfinity? ==> r == p
  {
    match p
    case Pct(v) => Pct(MinReal(v, 100.0))
    case PlusInfinity => Pct(100.0)
    case _ => p
  }

  /** `current / target * 100` in floating point: division by zero gives a
      signed infinity, or NaN for 0 / 0. */
  function Ratio(current: real, target: real): (r: Percent)
    ensures target != 0.0 ==> r.Pct? && r.value * target == current * 100.0
    ensures target == 0.0 ==> (r == PlusInfinity <==> current > 0.0)
    ensures target == 0.0 ==> (r == MinusInfinity <==> current < 0.0)
    ensures target == 0.0 ==> (r == NotANumber <==> current == 0.0)
  {
    if target != 0.0 then Pct(current / target * 100.0)
    else if current > 0.0 then PlusInfinity
    else if current < 0.0 then MinusInfinity
    else NotANumber
  }

  /** The progress of a goal card: a quality goal's ratio is shown uncapped,
      every other goal's is capped at 100. */
  function Progress(g: Goal): (r: Percent)
    ensures g.kind == Quality ==> r == Ratio(g.current, g.target)
    ensures g.kind != Quality && r.Pct? ==> r.value <= 100.0
    ensures g.kind != Quality ==> !r.PlusInfinity?
    ensures g.kind != Quality ==> r == CapPercent(Ratio(g.current, g.target))
  {
    if g.kind == Quality then Ratio(g.current, g.target)
    else CapPercent(Ratio(g.current, g.target))
  }

  /** A card is complete when the current value reaches the target; for a
      positive target, exactly when the uncapped ratio reaches 100. */
  predicate IsComplete(g: Goal)
    ensures g.target > 0.0 ==> (IsComplete(g) <==> Ratio(g.current, g.target).value >= 100.0)
  {
    if g.target > 0.0 then RatioReaches(g.current, g.target); g.current >= g.target
    else g.current >= g.target
  }

  lemma RatioReaches(current: real, target: real)
    requires target > 0.0
    ensures Ratio(current, target).value >= 100.0 <==> current >= target
  {
    var v := Ratio(current, target).value;
    assert v * target == current * 100.0;
    if v >= 100.0 && current < target {
      MulStrict(current, target, 100.0);
      MulMono(100.0, v, target);
      calc {
        v * target;
        == current * 100.0;
        < target * 100.0;
        == 100.0 * target;
        <= v * target;
      }
    }
    if current >= target && v < 100.0 {
      MulStrict(v, 100.0, target);
      MulMono(target, current, 100.0);
      calc {
        v * target;
        < 100.0 * target;
        == target * 100.0;
        <= current * 100.0;
        == v * target;
      }
    }
  }

  /** For a positive target the check mark and a full progress bar agree:
      a goal is complete exactly when its progress reaches 100. */
  lemma CompleteIffFull(g: Goal)
    requires g.target > 0.0
    ensures Progress(g).Pct?
    ensures IsComplete(g) <==> Progress(g).value >= 100.0
  {
    RatioReaches(g.current, g.target);
  }

  /** The quality card is not capped: a mean of 5 against a target of 4
      shows 125%. */
  lemma QualityProgressExceedsHundred()
    ensures Progress(Goal("2", Quality, 4.0, 5.0, "rating")) == Pct(125.0)
    ensures Progress(Goal("1", Duration, 480.0, 600.0, "minutes")) == Pct(100.0)
  {
  }

  /** `formatGoalValue` of a duration goal: whole hours by floor and the
      rest by JavaScript's remainder. For a non-negative value the two parts
      add back up to it; below zero (a goal recomputed from nights logged
      with negative durations) the remainder is negative too, so the parts
      add up to an hour less unless the value is a whole number of hours. */
  function HoursAndMinutes(x: real): (r: (int, real))
    ensures r.0 == (x / 60.0).Floor
    ensures x >= 0.0 ==> r.0 >= 0 && 0.0 <= r.1 < 60.0 && r.0 as real * 60.0 + r.1 == x
    ensures x < 0.0 ==> -60.0 < r.1 <= 0.0
    ensures x < 0.0 && r.0 as real == x / 60.0 ==> r.1 == 0.0
    ensures x < 0.0 && r.0 as real != x / 60.0 ==> r.0 as real * 60.0 + r.1 == x - 60.0
  {
    if x < 0.0 then
      NegativeJsRemReal(x, 60);
      ((x / 60.0).Floor, JsRemReal(x, 60))
    else
      ((x / 60.0).Floor, JsRemReal(x, 60))
  }
}
