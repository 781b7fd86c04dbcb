/** The summary numbers of src/components/Dashboard.tsx: last night, the
    7-session stat tiles, the routine preview, the goal rows and the recent
    achievements. */
module Dashboard {
  import opened Options
  import opened Numbers
  import opened Seqs
  import opened Sessions
  import Routines
  import Goals
  import Achievements
  import History

  /** "Last night" is the last stored session, if any. */
  function LastNight(ss: seq<Session>): (r: Option<Session>)
    ensures r.None? <==> |ss| == 0
    ensures r.Some? ==> ss == ss[..|ss| - 1] + [r.value]
  {
    if |ss| == 0 then None else Some(ss[|ss| - 1])
  }

  /** Logging a night makes it last night. */
  lemma LoggedNightIsLastNight(ss: seq<Session>, s: Session)
    ensures LastNight(ss + [s]) == Some(s)
  {
  }

  /** The "Last Night" tile: the last session's duration as hours and
      minutes, or "No data" (None). The dashboard's `formatDuration` is the
      history view's as written: floor hours and the rounded JavaScript
      remainder, so a negative duration shows negative minutes. */
  function LastNightTile(ss: seq<Session>): (r: Option<(int, int)>)
    ensures r.None? <==> |ss| == 0
    ensures r.Some? ==> var d := ss[|ss| - 1].duration;
      r.value.0 * 60 <= d < r.value.0 * 60 + 60
    ensures r.Some? && ss[|ss| - 1].duration >= 0 ==>
      0 <= r.value.1 < 60 && r.value.0 * 60 + r.value.1 == ss[|ss| - 1].duration
    ensures r.Some? && ss[|ss| - 1].duration < 0 ==>
      r.value.1 == JsRem(ss[|ss| - 1].duration, 60)
  {
    match LastNight(ss)
    case None => None
    case Some(s) =>
      var d := s.duration;
      if d >= 0 then
        History.AsWrittenExactOnWholeMinutes(d);
        Some(History.FormatDurationAsWritten(d as real))
      else
        TruncAgrees(d, 60);
        assert JsRemReal(d as real, 60) == JsRem(d, 60) as real;
        Some(History.FormatDurationAsWritten(d as real))
  }

  /** A night logged as -1 minutes (an end before its start) shows as
      "-1h -1m". */
  lemma NegativeNightShowsNegativeParts(s: Session)
    requires s.duration == -1
    ensures LastNightTile([s]) == Some((-1, -1))
  {
  }

  /** The "Avg Duration (7d)" tile: "No data" (None) unless the 7-session
      mean is positive, so also for a history of zero-minute sessions. The
      minutes are the rounded remainder, so they can read 60. */
  function AvgDurationTile(ss: seq<Session>): (r: Option<(int, int)>)
    ensures |ss| == 0 ==> r.None?
    ensures r.Some? <==> WindowMeanDuration(ss, 7) > 0.0
    ensures r.Some? ==> r.value.0 == (WindowMeanDuration(ss, 7) / 60.0).Floor
    ensures r.Some? ==> 0 <= r.value.1 <= 60 && r.value.0 * 60 + r.value.1 == Round(WindowMeanDuration(ss, 7))
  {
    var avg := WindowMeanDuration(ss, 7);
    if avg > 0.0 then Some(History.FormatDurationAsWritten(avg)) else None
  }

  /** Four nights of two hours and one of 118 minutes average 119.6
      minutes, which the tile shows as "1h 60m". */
  lemma AvgTileShowsSixtyMinutes(ss: seq<Session>)
    requires Durations(ss) == [120, 120, 120, 120, 118]
    ensures AvgDurationTile(ss) == Some((1, 60))
  {
    var ds: seq<int> := [120, 120, 120, 120, 118];
    assert Last(ss, 7) == ss;
    assert Sum(ds[4..]) == 118;
    assert Sum(ds[3..]) == 238 by { assert ds[3..][1..] == ds[4..]; }
    assert Sum(ds[2..]) == 358 by { assert ds[2..][1..] == ds[3..]; }
    assert Sum(ds[1..]) == 478 by { assert ds[1..][1..] == ds[2..]; }
    assert Sum(ds) == 598;
    assert Mean(ds) == 119.6;
    History.AsWrittenShowsSixtyMinutes();
  }

  /** The "Avg Quality (7d)" tile: the 7-session mean rating, or "No data". */
  function AvgQualityTile(ss: seq<Session>): (r: Option<real>)
    ensures |ss| == 0 ==> r.None?
    ensures r.Some? <==> WindowMeanQuality(ss, 7) > 0.0
    ensures r.Some? ==> r.value == WindowMeanQuality(ss, 7) > 0.0
  {
    var avg := WindowMeanQuality(ss, 7);
    if avg > 0.0 then Some(avg) else None
  }

  /** With valid ratings the quality tile always has data once a night is
      logged. */
  lemma QualityTileShownForValidRatings(ss: seq<Session>)
    requires |ss| > 0 && ValidRatings(ss)
    ensures AvgQualityTile(ss).Some?
    ensures AvgQualityTile(ss).value <= 5.0
  {
    WindowQualityInRange(ss, 7);
  }

  /** The routine preview: the first three items and how many more there
      are ("+N more items"). */
  function RoutinePreview(items: seq<Routines.RoutineItem>): (r: (seq<Routines.RoutineItem>, Option<nat>))
    ensures |r.0| == Min(3, |items|) && r.0 == items[..|r.0|]
    ensures r.1.Some? <==> |items| > 3
    ensures r.1.Some? ==> |r.0| + r.1.value == |items|
  {
    (Take(items, 3), if |items| > 3 then Some(|items| - 3) else None)
  }

  /** The star row of the last-night card: star k (1..5) is filled when the
      rating is at least k. */
  function Stars(quality: int): (r: seq<bool>)
    ensures |r| == 5
    ensures forall i :: 0 <= i < 5 ==> (r[i] <==> i + 1 <= quality)
  {
    seq(5, i requires 0 <= i < 5 => i + 1 <= quality)
  }

  /** A valid rating fills exactly that many stars, from the left. */
  lemma StarsShowRating(q: int)
    requires 1 <= q <= 5
    ensures Stars(q) == seq(q, _ => true) + seq(5 - q, _ => false)
  {
    var a := Stars(q);
    var b := seq(q, _ => true) + seq(5 - q, _ => false);
    assert forall i :: 0 <= i < 5 ==> a[i] == b[i];
  }

  /** A goal row: the progress figure and the width of its bar. */
  datatype GoalRow = GoalRow(goal: Goals.Goal, progress: Goals.Percent, width: Goals.Percent)

  /** The "Active Goals" rows: the first four goals, each with the goals
      view's progress and a bar capped at 100. */
  function GoalRows(gs: seq<Goals.Goal>): (r: seq<GoalRow>)
    ensures |r| == Min(4, |gs|)
    ensures forall i :: 0 <= i < |r| ==> r[i].goal == gs[i] && r[i].progress == Goals.Progress(gs[i])
    ensures forall i :: 0 <= i < |r| ==>
      !r[i].width.PlusInfinity? && (r[i].width.Pct? ==> r[i].width.value <= 100.0)
    ensures forall i :: 0 <= i < |r| ==> r[i].width == Goals.CapPercent(r[i].progress)
  {
    var shown := Take(gs, 4);
    seq(|shown|, i requires 0 <= i < |shown| =>
      GoalRow(shown[i], Goals.Progress(shown[i]), Goals.CapPercent(Goals.Progress(shown[i]))))
  }

  /** Only the quality bar is ever clipped: for the other goals the
      progress is already capped, so the bar shows it unchanged. */
  lemma OnlyQualityBarClipped(gs: seq<Goals.Goal>, i: int)
    requires 0 <= i < Min(4, |gs|)
    ensures gs[i].kind != Goals.Quality ==> GoalRows(gs)[i].width == GoalRows(gs)[i].progress
    ensures gs[i].kind == Goals.Quality && gs[i].target > 0.0 ==>
      GoalRows(gs)[i].width == Goals.Pct(MinReal(Goals.Progress(gs[i]).value, 100.0))
  {
  }

  predicate IsUnlocked(a: Achievements.Achievement)
  {
    a.unlocked
  }

  /** "Recent Achievements": the last four unlocked entries, in catalog
      order. */
  function RecentAchievements(achs: seq<Achievements.Achievement>): (r: seq<Achievements.Achievement>)
    ensures |r| == Min(4, |Filter(achs, IsUnlocked)|)
    ensures forall i :: 0 <= i < |r| ==> r[i].unlocked && r[i] in achs
    ensures |Filter(achs, IsUnlocked)| <= 4 ==> r == Filter(achs, IsUnlocked)
    ensures r == Filter(achs, IsUnlocked)[|Filter(achs, IsUnlocked)| - |r|..]
  {
    Last(Filter(achs, IsUnlocked), 4)
  }

  /** The section is hidden exactly when nothing is unlocked. */
  lemma RecentEmptyIffNoneUnlocked(achs: seq<Achievements.Achievement>)
    ensures |RecentAchievements(achs)| == 0 <==> forall i :: 0 <= i < |achs| ==> !achs[i].unlocked
  {
    if forall i :: 0 <= i < |achs| ==> !achs[i].unlocked {
      FilterKeepsNone(achs, IsUnlocked);
    }
  }

  /** An unlock pass never hides the recent list once it shows. */
  lemma UnlockKeepsRecentShown(achs: seq<Achievements.Achievement>, ss: seq<Session>, now: int, reading: Achievements.Reading)
    requires |RecentAchievements(achs)| > 0
    ensures |RecentAchievements(Achievements.UnlockPass(achs, ss, now, reading))| > 0
  {
    RecentEmptyIffNoneUnlocked(achs);
    RecentEmptyIffNoneUnlocked(Achievements.UnlockPass(achs, ss, now, reading));
    var i :| 0 <= i < |achs| && achs[i].unlocked;
    assert Achievements.UnlockPass(achs, ss, now, reading)[i].unlocked;
  }
}
