# Sleep monitor: a Dafny model of its session logic

The sleep monitor is a single-page React app. It records sleep sessions,
keeps a bedtime checklist, and derives from the stored session list:

- streaks and achievements;
- goal values;
- insight cards and recommendations;
- dashboard tiles and analytics.

This project models that derivation logic as pure Dafny functions over
immutable records. It proves what each view promises about the numbers and
verdicts it shows.

Each React effect or event handler becomes one function, from the stored
snapshot (plus any clock reading or fresh id as a parameter) to the new
snapshot.

| file | module | models |
|---|---|---|
| `seqs.dfy` | `Options`, `Seqs` | `Option`, `slice(-n)`, `slice(0, n)`, `filter`, `reverse` |
| `numbers.dfy` | `Numbers` | `Math.round`, JavaScript `%`, sums, means, the mean absolute deviation |
| `sessions.dfy` | `Sessions` | the session record and the 7-session window means |
| `streaks.dfy` | `Streaks` | `checkConsecutiveDays`: sort by end time, then walk the days |
| `achievements.dfy` | `Achievements` | the achievement catalog, the rule table and the unlock pass |
| `goals.dfy` | `Goals` | default goals, the recompute effect, `updateGoal`, progress and completion |
| `insights.dfy` | `Insights` | `generateInsights`, `getRecommendations` |
| `tracker.dfy` | `Tracker` | `startSleep`, `endSleep`, the rating/notes form, `getCurrentDuration` |
| `routines.dfy` | `Routines` | `toggleItem`, `addItem` (with `String.prototype.trim`), `deleteItem`, `resetRoutine`, progress |
| `history.dfy` | `History` | `deleteSession`, newest-first display, `formatDuration`, the summary card |
| `dashboard.dfy` | `Dashboard` | last night, stat tiles, routine preview, goal rows, recent achievements |
| `analytics.dfy` | `Analytics` | chart window, all-time and 7-session figures, rating histogram |

## Modelling choices

- **Numbers.**
  - Durations are whole minutes (`int`) and ratings are integers.
  - Means are exact `real`s.
  - `Math.round(x)` is `floor(x + 1/2)`.
  - JavaScript's truncating `%` is written out: `JsRem` on integers, `JsRemReal` on reals.
  - A goal ratio with a zero target yields a small `Percent` datatype (finite, +Infinity, -Infinity, NaN), as a floating-point division would.
- **Dates.**
  - A session keeps its end instant (`endMs`, epoch ms) and an abstract local calendar day (`endDay`).
  - `DaysAgree` states that a later end never falls on an earlier day. Every list the app stores has this property, and the streak lemmas assume it.
- **Consistency measure.** The source calls it "variance", but it is the mean absolute deviation from the window mean. It is modelled with exact reals as `Numbers.MeanAbsDeviation`.
- **Week and month streak rules.** The unlock pass takes a `Reading`:
  - `AsWritten` uses the returned streak number as the condition, as the code does;
  - `AsIntended` tests `streak >= target`, as the catalog descriptions say.
- **Personal tips.** The code adds two tips for a short mean and two more for a low rating, so 0, 2 or 4. The model follows the code (`Insights.PersonalTips`).
- **Shared expressions.** The dashboard's routine progress (src/components/Dashboard.tsx:23-25) is the same expression as the checklist's progress bar, so both use `Routines.Progress`. The dashboard's `formatDuration` (src/components/Dashboard.tsx:27-31) is the same code as the history view's, so both dashboard duration tiles use `History.FormatDurationAsWritten`, the code as written. `History.FormatDuration` is the corrected format, kept as the intended behaviour (see Findings).

## Model

| member | source | states |
|---|---|---|
| Options.AsSeq | src/components/SleepInsights.tsx:38-123 | an optional card contributes zero or one entries to the card list |
| Seqs.Last | src/components/SleepGoals.tsx:176 | `slice(-n)` for n > 0: the last min(n, length) elements, in order |
| Seqs.Take | src/components/SleepInsights.tsx:125 | `slice(0, n)`: the first min(n, length) elements |
| Seqs.Filter | src/components/BedtimeRoutines.tsx:44 | `filter`: every survivor is an element satisfying the test, and every element satisfying it survives |
| Seqs.FilterConcat | src/components/SleepHistory.tsx:14 | filtering a concatenation filters each part |
| Seqs.Reverse | src/components/SleepHistory.tsx:32 | element i of the reversed list is element n-1-i of the original |
| Seqs.ReverseInvolutive | src/components/SleepHistory.tsx:32 | reversing twice gives back the list |
| Seqs.FilterReverse | src/components/SleepHistory.tsx:14-32 | filtering commutes with reversing |
| Numbers.Round | src/components/SleepGoals.tsx:187 | `Math.round` gives an integer within one half of its argument, ties rounding up |
| Numbers.RoundTenths | src/components/SleepGoals.tsx:189 | `Math.round(x * 10) / 10` is within 0.05 of x and a whole number of tenths |
| Numbers.ToFixedTenths | src/components/SleepAnalytics.tsx:35 | `Number(x.toFixed(1))`: within 0.05 of x, a whole number of tenths, and its magnitude is the magnitude of x rounded to tenths with the sign kept, so ties round away from zero |
| Numbers.NegativeTieRoundsAway | src/components/SleepAnalytics.tsx:35 | -0.25 hours shows as -0.3, where `Math.round` to tenths would give -0.2 |
| Numbers.JsRem | src/components/SleepTracker.tsx:63 | JavaScript's `%` by a positive divisor: a - b * trunc(a / b), which is the ordinary remainder in [0, b) for a non-negative dividend and lies in (-b, 0] for a negative one |
| Numbers.TruncAgrees | src/components/Dashboard.tsx:29 | on integers, truncating the real quotient gives the integer quotient truncated toward zero, so the integer and real remainders agree |
| Numbers.NegativeJsRem | src/components/SleepTracker.tsx:63 | below zero, JavaScript's integer remainder is the floor remainder less b, or 0 on an exact multiple |
| Numbers.NegativeJsRemReal | src/components/SleepGoals.tsx:283 | below zero, the remainder of a number is x - b (floor(x / b) + 1), or 0 when x / b is whole |
| Numbers.JsRemReal | src/components/SleepGoals.tsx:283 | `%` on a number by a positive divisor b: x - b * trunc(x / b), which lies in [0, b) for x >= 0 and in (-b, 0] for x < 0 |
| Numbers.Percentage | src/components/BedtimeRoutines.tsx:56 | part/whole*100 lies in [0, 100], reaches 100 exactly when part equals whole, and times whole gives 100 part |
| Numbers.MeanVersusThreshold | src/components/SleepInsights.tsx:33-38 | a mean compares with a threshold exactly as the sum compares with threshold times count |
| Numbers.MeanInRange | src/components/SleepHistory.tsx:158 | values within [lo, hi] have a mean within [lo, hi] |
| Numbers.MeanOfConstant | src/components/SleepInsights.tsx:33 | equal values have that value as their mean |
| Numbers.MeanAbsDeviation | src/components/SleepGoals.tsx:237-245 | the consistency measure is non-negative, 0 for no values, and times the count it is the total distance of the values from their mean |
| Numbers.ConstantColumnIsSteady | src/components/SleepGoals.tsx:237-245 | equal durations have mean absolute deviation 0 |
| Numbers.DeviationWithinSpread | src/components/SleepGoals.tsx:241-244 | durations within a band of width w deviate on average by at most w |
| Sessions.Durations | src/components/SleepGoals.tsx:178 | the duration column, index by index |
| Sessions.WindowMeanDuration | src/components/Dashboard.tsx:14-17 | 0 for an empty list; otherwise, times min(n, length), it is the total duration of the last min(n, length) sessions |
| Sessions.WindowMeanQuality | src/components/Dashboard.tsx:18-20 | 0 for an empty list; otherwise, times min(n, length), it is the total rating of the last min(n, length) sessions |
| Sessions.WindowMeanShape | src/components/Dashboard.tsx:14-20 | the window is the last min(n, length) sessions, and both means are 0 for an empty list |
| Sessions.WindowQualityInRange | src/components/Dashboard.tsx:18-20 | with ratings in 1..5 a non-empty window's mean rating lies in 1..5 |
| Streaks.SortByEndDesc | src/components/SleepGoals.tsx:205-207 | the sort yields the same sessions, ordered by end time, newest first |
| Streaks.WalkFrom | src/components/SleepGoals.tsx:213-226 | the loop adds at most one per remaining session to the streak |
| Streaks.ConsecutiveDays | src/components/SleepGoals.tsx:202-229 | 0 exactly for an empty list, otherwise between 1 and the session count |
| Streaks.LatestDay | src/components/SleepGoals.tsx:210-211 | the calendar day of the newest session is the largest logged day |
| Streaks.StreakIsRun | src/components/SleepGoals.tsx:202-229 | the uncapped streak is the length of the unbroken run of logged days ending on the latest day |
| Streaks.RunUnique | src/components/SleepGoals.tsx:202-229 | that run length is unique, so it characterises the streak |
| Streaks.WalkCountsRun | src/components/SleepGoals.tsx:213-226 | the walk over newest-first days stops exactly where the run of consecutive days breaks |
| Streaks.StreakIgnoresOrder | src/components/SleepGoals.tsx:205-207 | any permutation of the stored list gives the same streak, capped or not |
| Streaks.CappedStreak | src/components/SleepGoals.tsx:222 | the target-capped walk is min(uncapped, max(t, 2)), which is min(uncapped, t) for t >= 2 |
| Streaks.SameDayKeepsStreak | src/components/SleepGoals.tsx:217-225 | a session on the latest logged day neither extends nor breaks the streak |
| Streaks.NextDayExtendsStreak | src/components/SleepGoals.tsx:209-222 | a session on the day after the latest raises the streak by exactly 1 |
| Streaks.GapRestartsStreak | src/components/SleepGoals.tsx:223-224 | a session more than a day after the latest resets the streak to 1 |
| Streaks.FullDaysGiveStreak | src/components/SleepGoals.tsx:213-222 | k logged days in a row ending on the latest give a streak of at least k |
| Achievements.SeedCatalog | src/components/SleepGoals.tsx:29-114 | an empty list gets exactly the catalog: ten locked entries with distinct ids; any other list is kept |
| Achievements.ShouldUnlock | src/components/SleepGoals.tsx:125-162 | no rule holds for an empty history |
| Achievements.UnknownIdNeverUnlocks | src/components/SleepGoals.tsx:125-162 | an id outside the catalog falls to the default branch and never unlocks |
| Achievements.UnlockPass | src/components/SleepGoals.tsx:118-170 | no sessions: nothing changes; otherwise same entries and order, unlocked ones untouched, a locked one unlocks and is stamped with now exactly when its rule holds |
| Achievements.UnlockIdempotent | src/components/SleepGoals.tsx:118-170 | a second pass over the same sessions changes nothing, whatever its clock |
| Achievements.UnlockNeverRelocks | src/components/SleepGoals.tsx:123 | an unlocked entry stays unlocked after every pass |
| Achievements.StreakRulesAlwaysFire | src/components/SleepGoals.tsx:143-148 | as written, the week and month streak rules hold for every non-empty history |
| Achievements.OneNightUnlocksWeekStreak | src/components/SleepGoals.tsx:143-162 | one logged night unlocks "Week Warrior" and "Monthly Master" on the first pass |
| Achievements.IntendedStreakRules | src/components/SleepGoals.tsx:43-51 | read as described, the streak rules fire exactly when the uncapped streak reaches 7 or 30 |
| Achievements.CatalogMilestones | src/components/SleepGoals.tsx:127-142 | on the seeded catalog, "First Night", "Early Bird", "Sleep Champion" and "100 Club" unlock exactly at 1, 10, 50 and 100 sessions, hence in that order, and "Quality Master" exactly at five 5-star sessions, which needs five sessions |
| Achievements.WindowRulesNeedFullWindow | src/components/SleepGoals.tsx:231-251 | the perfect-week, consistency and quality-streak rules never fire before their window is full |
| Achievements.PerfectWeek | src/components/SleepGoals.tsx:231-235 | the rule holds exactly when there are 7 sessions or more and the last seven lasted 420 to 540 minutes each |
| Achievements.QualityStreak | src/components/SleepGoals.tsx:247-251 | the rule holds exactly when there are 10 sessions or more and the last ten are rated 4 or better |
| Achievements.Consistent | src/components/SleepGoals.tsx:237-245 | the rule holds exactly when there are `days` sessions or more and the last `days` durations deviate from their mean by under 60 minutes on average |
| Achievements.SteadyFortnightIsConsistent | src/components/SleepGoals.tsx:237-245 | fourteen durations within a band narrower than an hour satisfy the consistency rule |
| Goals.SeedGoals | src/components/SleepGoals.tsx:16-26 | an empty list gets exactly the four default goals: ids "1" to "4", 480 minutes, rating 4, 7 days, 7 days, all at 0, with distinct ids; any other list is kept |
| Goals.Recompute | src/components/SleepGoals.tsx:173-197 | no sessions: unchanged; otherwise id, type, target and unit are kept, duration is the rounded 7-session mean (within half a minute of it), quality is the 7-session mean rating rounded to a tenth (within 0.05), and consistency and streak goals are the uncapped streak, between 1 and the session count |
| Goals.RecomputeIdempotent | src/components/SleepGoals.tsx:173-200 | recomputing from the same sessions a second time changes nothing |
| Goals.RecomputeStreakIsRun | src/components/SleepGoals.tsx:190-193 | consistency and streak goals both show the run of consecutive days ending on the latest day |
| Goals.UpdateTarget | src/components/SleepGoals.tsx:253-258 | only goals with the id get the new target; everything else is unchanged |
| Goals.SeededTargetEdit | src/components/SleepGoals.tsx:16-26 | editing a seeded goal's target by its id changes that goal alone |
| Goals.UpdateTargetLastWins | src/components/SleepGoals.tsx:253-258 | two updates of the same goal leave the second target |
| Goals.Ratio | src/components/SleepGoals.tsx:325 | current/target*100 times target is 100 current; a zero target gives +Infinity, -Infinity or NaN by the sign of current |
| Goals.CapPercent | src/components/SleepGoals.tsx:326 | `Math.min(p, 100)`: finite values capped, +Infinity becomes 100, NaN and -Infinity pass |
| Goals.Progress | src/components/SleepGoals.tsx:324-326 | the quality ratio is uncapped; every other ratio is `Math.min(ratio, 100)`, at most 100 and never +Infinity |
| Goals.IsComplete | src/components/SleepGoals.tsx:327 | for a positive target, a goal is complete exactly when its uncapped ratio reaches 100 |
| Goals.CompleteIffFull | src/components/SleepGoals.tsx:324-327 | for a positive target, current >= target exactly when the progress reaches 100 |
| Goals.QualityProgressExceedsHundred | src/components/SleepGoals.tsx:324-326 | a mean rating of 5 against a target of 4 shows 125%; a duration goal caps at 100% |
| Goals.HoursAndMinutes | src/components/SleepGoals.tsx:280-285 | floor hours; for a non-negative value the remainder minutes lie in [0, 60) and the parts add back up to it; below zero the minutes lie in (-60, 0], are 0 on a whole number of hours, and otherwise the parts add up to the value less 60 |
| Insights.DurationInsight | src/components/SleepInsights.tsx:38-59 | exactly one card: "Increase" (warning) below 420, "Great" (positive) from 420 to 540, "Consider quality" (info) above 540, citing the hours |
| Insights.QualityInsight | src/components/SleepInsights.tsx:62-76 | "Improve" (warning) below 3, "Excellent" (positive) from 4, no card in between, citing the rating |
| Insights.ConsistencyInsight | src/components/SleepInsights.tsx:79-97 | a card exactly for five or more sessions: "Improve" (info) when the mean absolute deviation exceeds 90, "Consistent" (positive) otherwise |
| Insights.PreviousWeekIsSessionsBefore | src/components/SleepInsights.tsx:101-104 | with 14 sessions or more, `slice(-14, -7)` of the last 30 is exactly the seven sessions before the last seven |
| Insights.TrendInsight | src/components/SleepInsights.tsx:101-123 | under 14 sessions no card; otherwise a card exactly when the weekly means differ by more than 30 minutes, "Improving" (positive) for a rise and "Declining" (warning) for a fall, citing the change in hours rounded to a tenth |
| Insights.TwoWeeksImproving | src/components/SleepInsights.tsx:101-113 | a week of 400-minute nights then a week of 500 reports an improvement of 1.7 hours |
| Insights.AssembleShows | src/components/SleepInsights.tsx:38-123 | the assembled list holds each rule's verdict, if any, and no other card of that rule |
| Insights.GenerateInsights | src/components/SleepInsights.tsx:17-125 | an empty history gives the single onboarding card; otherwise the duration card comes first, there are one to six cards, and the quality, consistency and trend cards appear exactly when their rules give one, as that card |
| Insights.CapNeverTrims | src/components/SleepInsights.tsx:125 | there are never more than four cards, so the cap of six cuts nothing |
| Insights.CardsInRuleOrder | src/components/SleepInsights.tsx:38-125 | at most one card per rule, in the order the rules run, the duration card first |
| Insights.OneShortPoorNight | src/components/SleepInsights.tsx:38-123 | one 6-hour night rated 2 gives exactly a duration warning and a quality warning |
| Insights.PersonalTips | src/components/SleepInsights.tsx:148-158 | two duration tips exactly for a mean under 420 minutes, two quality tips exactly for a mean rating under 3, in that order |
| Insights.Recommendations | src/components/SleepInsights.tsx:128-161 | always eight entries: the personal tips, then the general tips in their order |
| Insights.EmptyHistoryGetsAllTips | src/components/SleepInsights.tsx:140-157 | with no sessions all four personal tips lead, followed by the first four general ones |
| Tracker.Initial | src/components/SleepTracker.tsx:13-14 | the form starts with rating 3 and no notes |
| Tracker.StartSleep | src/components/SleepTracker.tsx:16-21 | the active session starts now and nothing else changes, even if one was running |
| Tracker.MinutesBetween | src/components/SleepTracker.tsx:28 | the floor of the elapsed minutes: m minutes fit in the interval and m + 1 do not |
| Tracker.EndSleep | src/components/SleepTracker.tsx:23-47 | without an active session nothing changes; otherwise one session is appended with the active start, now, the floored minutes, the form's rating and notes, the earlier sessions stay, and the form resets |
| Tracker.Rate | src/components/SleepTracker.tsx:139-142 | picking a rating changes only the rating |
| Tracker.SetNotes | src/components/SleepTracker.tsx:172 | typing notes changes only the notes |
| Tracker.CurrentDuration | src/components/SleepTracker.tsx:57-65 | "0h 0m" with no session; for a past start, hours and minutes in [0, 60) that add back up to the elapsed minutes; for a start in the future, floor hours and minutes in (-60, 0], 0 on a whole number of hours and otherwise adding up to the elapsed minutes less 60 |
| Tracker.EndedDurationMatchesDisplay | src/components/SleepTracker.tsx:28-61 | the recorded duration equals what the running display showed at the same instant |
| Tracker.OperationsKeepValid | src/components/SleepTracker.tsx:16-47 | every operation keeps the form rating and all stored ratings in 1..5 |
| Tracker.EndSleepKeepsDaysAgree | src/components/SleepTracker.tsx:23-43 | a session ending after all stored ones keeps day numbers in step with end times |
| Tracker.StartThenEnd | src/components/SleepTracker.tsx:16-47 | starting and ending at the same instant logs one zero-minute session and resets the form |
| Routines.Toggle | src/components/BedtimeRoutines.tsx:15-22 | items with the id flip their tick; ids, titles and other items are unchanged |
| Routines.ToggleInvolutive | src/components/BedtimeRoutines.tsx:15-22 | toggling an id twice restores the list |
| Routines.Trim | src/components/BedtimeRoutines.tsx:25-29 | `trim()`: the text between the leading and trailing white space, neither end of the result being white space |
| Routines.TrimEmptyIffBlank | src/components/BedtimeRoutines.tsx:25 | the trimmed title is empty exactly when the box holds only white space |
| Routines.TrimIdempotent | src/components/BedtimeRoutines.tsx:29 | trimming a trimmed title changes nothing |
| Routines.AddItem | src/components/BedtimeRoutines.tsx:24-39 | a blank title changes nothing; otherwise one unticked item with the trimmed title is appended and the box cleared |
| Routines.BlankTitleAddsNothing | src/components/BedtimeRoutines.tsx:25 | a box of white space adds nothing |
| Routines.AddTrimsTitle | src/components/BedtimeRoutines.tsx:27-38 | a title padded with white space is stored without the padding |
| Routines.DeleteItem | src/components/BedtimeRoutines.tsx:41-46 | exactly the items without the id survive |
| Routines.DeleteKeepsOrder | src/components/BedtimeRoutines.tsx:44 | the survivors keep their relative order |
| Routines.DeleteAbsentOrTwice | src/components/BedtimeRoutines.tsx:44 | deleting an absent id changes nothing, and deleting twice is deleting once |
| Routines.Reset | src/components/BedtimeRoutines.tsx:48-53 | every item is unticked; length, ids, titles and order are kept |
| Routines.ResetIdempotent | src/components/BedtimeRoutines.tsx:48-53 | resetting twice is resetting once |
| Routines.ResetClearsProgress | src/components/BedtimeRoutines.tsx:48-56 | after a reset nothing is completed and progress is 0 |
| Routines.CountIsLengthIffAllDone | src/components/BedtimeRoutines.tsx:55 | the completed count is at most the length, and equals it exactly when every item is ticked |
| Routines.Progress | src/components/BedtimeRoutines.tsx:55-56 | 0 for no items; otherwise completed/length*100, within [0, 100] |
| Routines.BannerIffFull | src/components/BedtimeRoutines.tsx:83 | the "routine is complete" banner shows exactly when the list is non-empty and all ticked, exactly when the bar reads 100 |
| History.DeleteSession | src/components/SleepHistory.tsx:11-16 | exactly the sessions without the id survive |
| History.DeleteKeepsOrder | src/components/SleepHistory.tsx:14 | the survivors keep their stored order |
| History.DeleteKeepsDaysAgree | src/components/SleepHistory.tsx:14 | deleting keeps day numbers in step with end times |
| History.Displayed | src/components/SleepHistory.tsx:32 | the list is shown newest first: entry i is stored entry n-1-i |
| History.DeleteCommutesWithDisplay | src/components/SleepHistory.tsx:11-32 | deleting then displaying equals displaying then deleting, and the display loses nothing |
| History.FormatDurationAsWritten | src/components/SleepHistory.tsx:18-22 | as written: floor hours; for non-negative input, minutes in [0, 60] with hours * 60 + minutes the rounded input; for negative input, minutes in [-60, 0], 0 on a whole number of hours, and otherwise hours * 60 + minutes is the rounded input less 60 |
| History.AsWrittenExactOnWholeMinutes | src/components/SleepHistory.tsx:18-22 | for a whole number of minutes the minutes are in [0, 59] and the parts add back up |
| History.AsWrittenShowsSixtyMinutes | src/components/SleepHistory.tsx:18-22 | a mean of 119.6 minutes is shown as "1h 60m" |
| History.FormatDuration | src/components/SleepHistory.tsx:18-22 | rounding first: minutes in [0, 60) and hours * 60 + minutes exactly the rounded input, so within half a minute of it |
| History.FormatsAgreeOnWholeMinutes | src/components/SleepHistory.tsx:18-22 | the corrected and written formats agree on every whole number of minutes |
| History.HistorySummary | src/components/SleepHistory.tsx:139-167 | shown only for a non-empty list; the count, and the means and total hours that multiply back to the sums |
| History.SummaryRatingInRange | src/components/SleepHistory.tsx:156-159 | with ratings in 1..5 the mean rating lies in 1..5 |
| Dashboard.LastNight | src/components/Dashboard.tsx:22 | the last stored session, absent exactly for an empty list |
| Dashboard.LoggedNightIsLastNight | src/components/Dashboard.tsx:22 | logging a session makes it last night |
| Dashboard.LastNightTile | src/components/Dashboard.tsx:22-36 | "No data" exactly for an empty list; otherwise floor hours, and minutes in [0, 60) adding back up to a non-negative duration, or the JavaScript remainder (at most 0) for a negative one |
| Dashboard.NegativeNightShowsNegativeParts | src/components/Dashboard.tsx:27-36 | a night of -1 minutes shows as "-1h -1m" |
| Dashboard.AvgDurationTile | src/components/Dashboard.tsx:27-42 | shown exactly when the 7-session mean is positive; floor hours of the mean, and minutes in [0, 60] with hours * 60 + minutes the rounded mean |
| Dashboard.AvgTileShowsSixtyMinutes | src/components/Dashboard.tsx:27-42 | nights of 120, 120, 120, 120 and 118 minutes show as "1h 60m" |
| Dashboard.AvgQualityTile | src/components/Dashboard.tsx:18-50 | shown exactly when the 7-session mean rating is positive, and then it is that mean |
| Dashboard.QualityTileShownForValidRatings | src/components/Dashboard.tsx:18-20 | with ratings in 1..5 and one logged night the quality tile always has data, at most 5 |
| Dashboard.RoutinePreview | src/components/Dashboard.tsx:120-130 | the first three items, and "+N more" exactly when there are more, with N the rest |
| Dashboard.Stars | src/components/Dashboard.tsx:150-154 | star k is filled exactly when the rating is at least k |
| Dashboard.StarsShowRating | src/components/Dashboard.tsx:150-154 | a rating q in 1..5 fills the first q stars and no others |
| Dashboard.GoalRows | src/components/Dashboard.tsx:191-215 | the first four goals with the goals view's progress, and a bar that is `Math.min(progress, 100)` of it, never wider than 100 |
| Dashboard.OnlyQualityBarClipped | src/components/Dashboard.tsx:192-215 | the bar of a non-quality goal shows its progress unchanged; only the quality bar is clipped |
| Dashboard.RecentAchievements | src/components/Dashboard.tsx:237 | the last min(4, number unlocked) of the unlocked entries, in catalog order; all of them when there are at most four |
| Dashboard.RecentEmptyIffNoneUnlocked | src/components/Dashboard.tsx:226-237 | the recent list is empty exactly when nothing is unlocked |
| Dashboard.UnlockKeepsRecentShown | src/components/Dashboard.tsx:226-237 | an unlock pass never hides a shown recent list |
| Analytics.ChartPoints | src/components/SleepAnalytics.tsx:31-43 | one point per session of the last min(n, 30), indexed 1.., hours a whole number of tenths within 0.05 of the duration, whose magnitude is the duration's magnitude rounded to tenths and which is negative only for a negative duration, and the session's rating |
| Analytics.Distribution | src/components/SleepAnalytics.tsx:57-60 | five buckets, bucket k counting the sessions rated k |
| Analytics.Analyze | src/components/SleepAnalytics.tsx:11-55 | "no data" exactly for an empty history; otherwise the chart points, total hours that are the total minutes over 60, the all-time and 7-session mean durations in hours and mean ratings, and the histogram |
| Analytics.ShortHistoryWindowIsAll | src/components/SleepAnalytics.tsx:45-55 | with at most seven sessions the 7-session figures equal the all-time ones |
| Analytics.RatingsInRange | src/components/SleepAnalytics.tsx:47-55 | with ratings in 1..5 both mean ratings lie in 1..5 |
| Analytics.BucketsCountRated | src/components/SleepAnalytics.tsx:57-60 | the bucket counts add up to the number of sessions rated 1..5 |
| Analytics.DistributionCoversAll | src/components/SleepAnalytics.tsx:57-60 | with ratings in 1..5 the buckets account for every session |

## Left out

- Persistence: localStorage loading and saving, JSON (de)serialisation and the default routine items seeded by src/App.tsx. Only its record types (src/App.tsx:11-50) are mirrored, as `Session`, `RoutineItem`, `Goal` and `Achievement`.
- JSX, CSS classes, icons and the recharts components. Text made by `toFixed`, `toLocaleDateString` and `toLocaleTimeString` is left out too: the model keeps the numbers behind that text.
- React effect scheduling. Each effect is a function of the snapshot it reads, applied once.
- Local time.
  - Calendar days are abstract day numbers, constrained only by `DaysAgree`.
  - The source subtracts two local midnights and floors by 86400000 ms. Across a 23-hour daylight-saving day, two adjacent dates therefore read as the same day. The model does not reproduce this.
- Ids from `Date.now().toString()` and the clock reading are parameters (`newId`, `now`, `endDay`). `unlockedDate` is kept as the epoch-ms instant rather than its ISO string.
- IEEE-754 behaviour: means, ratios and remainders are exact reals, and only the division by a zero target is given its floating-point outcome.
- `Number((d / 60).toFixed(1))` in the chart data is computed on exact reals: the magnitude rounded to tenths with ties away from zero, the sign kept (`Numbers.ToFixedTenths`). The source works on doubles, so a quotient that is not exactly representable and lies next to a halfway point can round the other way.
- Seqs.Last: models `slice(-n)` for n > 0 only. JavaScript's `slice(-0)` is the whole array, but every window the views take (4, 7, 10, 14, 30) is positive.
- The icon, title and description strings of the insight cards are represented by the `Card` constructors (their titles are in `Insights.Title`). The hours and ratings cited in the descriptions are kept as numbers.

## Findings

| source | as written | input that shows it | evidently intended | confidence | as-written member | corrected member |
|---|---|---|---|---|---|---|
| src/components/SleepGoals.tsx:143-148 | `shouldUnlock = checkConsecutiveDays(7)` (and `30`) uses the streak number as a truth value | any single logged night: the streak is 1, which is truthy, so "Track sleep for 7 consecutive days" unlocks | unlock when the streak reaches 7 (30) days, as the descriptions at src/components/SleepGoals.tsx:43-51 say | not executed | Achievements.StreakRulesAlwaysFire | Achievements.IntendedStreakRules |
| src/components/SleepHistory.tsx:18-22 | `Math.round(minutes % 60)` after `Math.floor(minutes / 60)` | a mean of 119.6 minutes is shown as "1h 60m" (the same code is at src/components/Dashboard.tsx:27-31) | round to whole minutes first, then split: "2h 0m" | not executed | History.AsWrittenShowsSixtyMinutes | History.FormatDuration |
| src/components/Dashboard.tsx:27-31 | the dashboard's own copy of the same `formatDuration`, used by the "Avg Duration (7d)" tile | nights of 120, 120, 120, 120 and 118 minutes average 119.6 and the tile reads "1h 60m" | "2h 0m" | not executed | Dashboard.AvgTileShowsSixtyMinutes | History.FormatDuration |
