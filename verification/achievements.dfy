/** The achievement catalog and the unlock pass of
    src/components/SleepGoals.tsx: a 10-entry rule table, applied to every
    locked entry whenever the session list changes. */
module Achievements {
  import opened Options
  import opened Numbers
  import opened Seqs
  import opened Sessions
  import opened Streaks

  datatype Category = MilestoneBadge | StreakBadge | QualityBadge | ConsistencyBadge

  /** `unlockedAt` is the instant (epoch ms) of the pass that unlocked the
      entry; the source stores it as an ISO string. */
  datatype Achievement = Achievement(
    id: string,
    title: string,
    description: string,
    icon: string,
    unlocked: bool,
    unlockedAt: Option<int>,
    category: Category)

  function Locked(id: string, title: string, description: string, icon: string, category: Category): Achievement
  {
    Achievement(id, title, description, icon, false, None, category)
  }

  /** The catalog seeded when no achievements are stored, in display order. */
  const Catalog: seq<Achievement> := [
    Locked("first_sleep", "First Night", "Log your first sleep session", "\U{1F319}", MilestoneBadge),
    Locked("week_streak", "Week Warrior", "Track sleep for 7 consecutive days", "\U{1F525}", StreakBadge),
    Locked("month_streak", "Monthly Master", "Track sleep for 30 consecutive days", "\U{1F3C6}", StreakBadge),
    Locked("perfect_week", "Perfect Week", "Get 7-9 hours of sleep for 7 days straight", "\U{2B50}", ConsistencyBadge),
    Locked("quality_master", "Quality Master", "Achieve 5-star quality rating 5 times", "\U{1F48E}", QualityBadge),
    Locked("early_bird", "Early Bird", "Log 10 sleep sessions", "\U{1F426}", MilestoneBadge),
    Locked("sleep_champion", "Sleep Champion", "Log 50 sleep sessions", "\U{1F451}", MilestoneBadge),
    Locked("consistency_king", "Consistency King", "Maintain consistent sleep schedule for 14 days", "\U{1F3AF}", ConsistencyBadge),
    Locked("quality_streak", "Quality Streak", "Get 4+ star rating for 10 consecutive sessions", "\U{2728}", QualityBadge),
    Locked("hundred_club", "100 Club", "Log 100 sleep sessions", "\U{1F4AF}", MilestoneBadge)
  ]

  /** The seeding effect: an empty list gets the catalog, any other is kept. */
  function SeedCatalog(achs: seq<Achievement>): (r: seq<Achievement>)
    ensures |achs| > 0 ==> r == achs
    ensures |achs| == 0 ==> r == Catalog
    ensures |achs| == 0 ==> |r| == 10 && forall i :: 0 <= i < |r| ==> !r[i].unlocked
    ensures |achs| == 0 ==> forall i, j :: 0 <= i < j < |r| ==> r[i].id != r[j].id
  {
    if |achs| == 0 then Catalog else achs
  }

  /** `checkPerfectWeek`: seven sessions, each of 7 to 9 hours; so the rule
      holds exactly when there are seven and the last seven lasted 420 to 540
      minutes each. */
  predicate PerfectWeek(ss: seq<Session>)
    ensures PerfectWeek(ss) <==>
      |ss| >= 7 && forall i :: |ss| - 7 <= i < |ss| ==> 420 <= ss[i].duration <= 540
  {
    WindowMeanShape(ss, 7);
    var w := Last(ss, 7);
    |w| >= 7 && forall i :: 0 <= i < |w| ==> 420 <= w[i].duration <= 540
  }

  /** `checkConsistency(days)`: the last `days` sessions exist and their
      durations deviate from their mean by less than an hour on average. */
  predicate Consistent(ss: seq<Session>, days: nat)
    ensures Consistent(ss, days) <==>
      |ss| >= days && MeanAbsDeviation(Durations(ss[|ss| - days..])) < 60.0
  {
    WindowMeanShape(ss, days);
    var w := Last(ss, days);
    |w| >= days && MeanAbsDeviation(Durations(w)) < 60.0
  }

  /** `checkQualityStreak`: ten sessions, each rated 4 or better; so the
      rule holds exactly when the last ten are all rated 4 or more. */
  predicate QualityStreak(ss: seq<Session>)
    ensures QualityStreak(ss) <==>
      |ss| >= 10 && forall i :: |ss| - 10 <= i < |ss| ==> ss[i].quality >= 4
  {
    WindowMeanShape(ss, 10);
    var w := Last(ss, 10);
    |w| >= 10 && forall i :: 0 <= i < |w| ==> w[i].quality >= 4
  }

  /** How the two streak rules read the number `checkConsecutiveDays`
      returns: as written, the number itself is the condition (JavaScript
      truthiness: any non-zero streak unlocks); as the descriptions intend,
      the streak must reach the target. */
  datatype Reading = AsWritten | AsIntended

  predicate StreakRule(ss: seq<Session>, days: int, reading: Reading)
  {
    var streak := ConsecutiveDays(ss, UpTo(days));
    match reading
    case AsWritten => streak != 0
    case AsIntended => streak >= days
  }

  /** The `switch (achievement.id)`: no rule holds for an empty history. */
  predicate ShouldUnlock(id: string, ss: seq<Session>, reading: Reading)
    ensures ShouldUnlock(id, ss, reading) ==> |ss| > 0
  {
    if id == "first_sleep" then |ss| >= 1
    else if id == "early_bird" then |ss| >= 10
    else if id == "sleep_champion" then |ss| >= 50
    else if id == "hundred_club" then |ss| >= 100
    else if id == "quality_master" then CountRated(ss, 5) >= 5
    else if id == "week_streak" then StreakRule(ss, 7, reading)
    else if id == "month_streak" then StreakRule(ss, 30, reading)
    else if id == "perfect_week" then PerfectWeek(ss)
    else if id == "consistency_king" then Consistent(ss, 14)
    else if id == "quality_streak" then QualityStreak(ss)
    else false
  }

  /** Only the catalog's ids have a rule: the `default` branch never
      unlocks. */
  lemma UnknownIdNeverUnlocks(id: string, ss: seq<Session>, reading: Reading)
    requires forall i :: 0 <= i < |Catalog| ==> Catalog[i].id != id
    ensures !ShouldUnlock(id, ss, reading)
  {
    assert Catalog[0].id != id && Catalog[1].id != id && Catalog[2].id != id;
    assert Catalog[3].id != id && Catalog[4].id != id && Catalog[5].id != id;
    assert Catalog[6].id != id && Catalog[7].id != id && Catalog[8].id != id;
    assert Catalog[9].id != id;
  }

  function UnlockOne(a: Achievement, ss: seq<Session>, now: int, reading: Reading): Achievement
  {
    if a.unlocked then a
    else if ShouldUnlock(a.id, ss, reading) then a.(unlocked := true, unlockedAt := Some(now))
    else a
  }

  /** The unlock effect. Nothing happens without sessions or achievements;
      otherwise every locked entry whose rule holds is unlocked and stamped
      with `now`, and every other entry is left as it is. */
  function UnlockPass(achs: seq<Achievement>, ss: seq<Session>, now: int, reading: Reading): (r: seq<Achievement>)
    ensures |ss| == 0 ==> r == achs
    ensures |r| == |achs|
    ensures forall i :: 0 <= i < |achs| ==>
      && r[i].id == achs[i].id && r[i].title == achs[i].title
      && r[i].description == achs[i].description && r[i].icon == achs[i].icon
      && r[i].category == achs[i].category
    ensures forall i :: 0 <= i < |achs| && achs[i].unlocked ==> r[i] == achs[i]
    ensures forall i :: 0 <= i < |achs| && !achs[i].unlocked && |ss| > 0 ==>
      (r[i].unlocked <==> ShouldUnlock(achs[i].id, ss, reading))
    ensures forall i :: 0 <= i < |achs| && r[i] != achs[i] ==>
      r[i] == achs[i].(unlocked := true, unlockedAt := Some(now))
  {
    if |ss| == 0 || |achs| == 0 then achs
    else seq(|achs|, i requires 0 <= i < |achs| => UnlockOne(achs[i], ss, now, reading))
  }

  /** A second pass over the same sessions changes nothing, whatever its
      clock reads. */
  lemma UnlockIdempotent(achs: seq<Achievement>, ss: seq<Session>, now: int, later: int, reading: Reading)
    ensures UnlockPass(UnlockPass(achs, ss, now, reading), ss, later, reading) == UnlockPass(achs, ss, now, reading)
  {
    var once := UnlockPass(achs, ss, now, reading);
    var twice := UnlockPass(once, ss, later, reading);
    assert forall i :: 0 <= i < |once| ==> twice[i] == once[i];
  }

  /** No pass ever locks an entry again: what is unlocked stays unlocked,
      whatever the session list becomes. */
  lemma UnlockNeverRelocks(achs: seq<Achievement>, ss: seq<Session>, now: int, reading: Reading, i: int)
    requires 0 <= i < |achs| && achs[i].unlocked
    ensures UnlockPass(achs, ss, now, reading)[i].unlocked
  {
  }

  /** As written, the week and month streak rules hold for every non-empty
      history: the streak number is at least 1 and so is truthy. */
  lemma StreakRulesAlwaysFire(ss: seq<Session>)
    requires |ss| > 0
    ensures ShouldUnlock("week_streak", ss, AsWritten)
    ensures ShouldUnlock("month_streak", ss, AsWritten)
  {
  }

  /** Hence on the first pass over one logged night the "7 consecutive
      days" entry of the catalog unlocks. */
  lemma OneNightUnlocksWeekStreak(s: Session, now: int)
    ensures UnlockPass(Catalog, [s], now, AsWritten)[1].unlocked
    ensures UnlockPass(Catalog, [s], now, AsWritten)[2].unlocked
  {
    StreakRulesAlwaysFire([s]);
  }

  /** Read as intended, the streak rules fire exactly when the uncapped
      streak reaches 7 (or 30) days. */
  lemma IntendedStreakRules(ss: seq<Session>)
    ensures ShouldUnlock("week_streak", ss, AsIntended) <==> ConsecutiveDays(ss, Unbounded) >= 7
    ensures ShouldUnlock("month_streak", ss, AsIntended) <==> ConsecutiveDays(ss, Unbounded) >= 30
  {
    CappedStreak(ss, 7);
    CappedStreak(ss, 30);
  }

  /** Fourteen nights whose durations all lie within a band narrower than
      an hour are consistent; fourteen identical nights are too. */
  lemma SteadyFortnightIsConsistent(ss: seq<Session>, lo: int)
    requires |ss| >= 14
    requires forall i :: |ss| - 14 <= i < |ss| ==> lo <= ss[i].duration < lo + 60
    ensures Consistent(ss, 14)
  {
    var w := Last(ss, 14);
    var ds := Durations(w);
    forall i | 0 <= i < |ds|
      ensures lo <= ds[i] <= lo + 59
    {
      assert w[i] == ss[|ss| - 14 + i];
    }
    DeviationWithinSpread(ds, lo, lo + 59);
  }

  /** The windowed rules need a full window: with fewer sessions than the
      window they never fire. */
  lemma WindowRulesNeedFullWindow(ss: seq<Session>)
    ensures |ss| < 7 ==> !PerfectWeek(ss)
    ensures |ss| < 14 ==> !Consistent(ss, 14)
    ensures |ss| < 10 ==> !QualityStreak(ss)
  {
  }

  /** One pass over the seeded catalog: each count milestone unlocks exactly
      when the history reaches its size, so they unlock in catalog order,
      and "Quality Master" unlocks exactly at five 5-star nights. */
  lemma CatalogMilestones(ss: seq<Session>, now: int, reading: Reading)
    ensures var r := UnlockPass(Catalog, ss, now, reading);
      && (r[0].unlocked <==> |ss| >= 1)
      && (r[5].unlocked <==> |ss| >= 10)
      && (r[6].unlocked <==> |ss| >= 50)
      && (r[9].unlocked <==> |ss| >= 100)
      && (r[4].unlocked <==> CountRated(ss, 5) >= 5)
    ensures var r := UnlockPass(Catalog, ss, now, reading);
      && (r[9].unlocked ==> r[6].unlocked)
      && (r[6].unlocked ==> r[5].unlocked)
      && (r[5].unlocked ==> r[0].unlocked)
      && (r[4].unlocked ==> |ss| >= 5)
  {
  }
}
