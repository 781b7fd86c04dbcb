/** The start/stop session recorder of src/components/SleepTracker.tsx: the
    stored active session (`currentSession`), the rating and notes the form
    holds, and the stored session list they are appended to. */
module Tracker {
  import opened Options
  import opened Numbers
  import opened Sessions

  const MsPerMinute := 60000

  /** `active` is the start instant (epoch ms) of the running session, or
      None when no session is running. */
  datatype Tracker = Tracker(sessions: seq<Session>, active: Option<int>, quality: int, notes: string)

  /** The form starts with a rating of 3 and no notes. */
  function Initial(sessions: seq<Session>, active: Option<int>): (r: Tracker)
    ensures r.sessions == sessions && r.active == active
    ensures r.quality == 3 && r.notes == ""
  {
    Tracker(sessions, active, 3, "")
  }

  /** `startSleep`: a session starts now. A running one is not checked for:
      its start is overwritten. */
  function StartSleep(t: Tracker, now: int): (r: Tracker)
    ensures r.active == Some(now)
    ensures r.sessions == t.sessions && r.quality == t.quality && r.notes == t.notes
  {
    t.(active := Some(now))
  }

  /** Whole minutes between two instants, by floor as the source's
      `Math.floor(ms / 60000)`. */
  function MinutesBetween(start: int, end: int): (m: int)
    ensures m * MsPerMinute <= end - start < (m + 1) * MsPerMinute
    ensures end >= start ==> m >= 0
  {
    (end - start) / MsPerMinute
  }

  /** `endSleep`: without a running session nothing happens. Otherwise one
      session is appended, from the stored start to `now`, with the form's
      rating and notes; the running session is cleared and the form reset.
      `newId` stands for `Date.now().toString()` and `endDay` for the local
      calendar day of `now`. */
  function EndSleep(t: Tracker, now: int, newId: string, endDay: int): (r: Tracker)
    ensures t.active.None? ==> r == t
    ensures t.active.Some? ==>
      && |r.sessions| == |t.sessions| + 1
      && r.sessions[..|t.sessions|] == t.sessions
      && r.active.None?
      && r.quality == 3 && r.notes == ""
    ensures t.active.Some? ==>
      var s := r.sessions[|t.sessions|];
      && s.id == newId && s.startMs == t.active.value && s.endMs == now && s.endDay == endDay
      && s.quality == t.quality && s.notes == t.notes
      && s.duration * MsPerMinute <= now - s.startMs < (s.duration + 1) * MsPerMinute
      && (now >= s.startMs ==> s.duration >= 0)
  {
    match t.active
    case None => t
    case Some(start) =>
      var s := Session(newId, start, now, endDay, MinutesBetween(start, now), t.quality, t.notes);
      Initial(t.sessions + [s], None)
  }

  /** Picking a rating on the form; the buttons offer 1 to 5. */
  function Rate(t: Tracker, q: int): (r: Tracker)
    requires 1 <= q <= 5
    ensures r.quality == q
    ensures r.sessions == t.sessions && r.active == t.active && r.notes == t.notes
  {
    t.(quality := q)
  }

  function SetNotes(t: Tracker, notes: string): (r: Tracker)
    ensures r.notes == notes
    ensures r.sessions == t.sessions && r.active == t.active && r.quality == t.quality
  {
    t.(notes := notes)
  }

  /** `getCurrentDuration`: the running time as hours and minutes, "0h 0m"
      when no session runs. Minutes are JavaScript's `%`, so a start in the
      future gives negative parts. */
  function CurrentDuration(t: Tracker, now: int): (r: (int, int))
    ensures t.active.None? ==> r == (0, 0)
    ensures t.active.Some? && now >= t.active.value ==>
      && r.0 >= 0 && 0 <= r.1 < 60
      && r.0 * 60 + r.1 == MinutesBetween(t.active.value, now)
    ensures t.active.Some? && now < t.active.value ==>
      var m := MinutesBetween(t.active.value, now);
      && r.0 * 60 <= m < r.0 * 60 + 60 && -60 < r.1 <= 0
      && (m % 60 == 0 ==> r.1 == 0 && r.0 * 60 == m)
      && (m % 60 != 0 ==> r.0 * 60 + r.1 == m - 60)
  {
    match t.active
    case None => (0, 0)
    case Some(start) =>
      var m := MinutesBetween(start, now);
      if m < 0 then
        NegativeJsRem(m, 60);
        (m / 60, JsRem(m, 60))
      else
        (m / 60, JsRem(m, 60))
  }

  /** Stopping a session records exactly the running time the display
      showed at that instant. */
  lemma EndedDurationMatchesDisplay(t: Tracker, now: int, newId: string, endDay: int)
    requires t.active.Some? && now >= t.active.value
    ensures var (h, m) := CurrentDuration(t, now);
      EndSleep(t, now, newId, endDay).sessions[|t.sessions|].duration == h * 60 + m
  {
  }

  /** What every reachable tracker satisfies: the form's rating and every
      stored rating lie in 1..5. */
  predicate Valid(t: Tracker)
  {
    1 <= t.quality <= 5 && ValidRatings(t.sessions)
  }

  /** Every operation keeps a valid tracker valid. */
  lemma OperationsKeepValid(t: Tracker, now: int, newId: string, endDay: int, q: int, notes: string)
    requires Valid(t)
    ensures Valid(StartSleep(t, now))
    ensures Valid(EndSleep(t, now, newId, endDay))
    ensures 1 <= q <= 5 ==> Valid(Rate(t, q))
    ensures Valid(SetNotes(t, notes))
  {
    var r := EndSleep(t, now, newId, endDay);
    if t.active.Some? {
      assert forall i :: 0 <= i < |t.sessions| ==> r.sessions[i] == t.sessions[i];
    }
  }

  /** A session that ends after every stored one, on a day no earlier than
      theirs, keeps the day numbers in step with the end instants. */
  lemma EndSleepKeepsDaysAgree(t: Tracker, now: int, newId: string, endDay: int)
    requires DaysAgree(t.sessions)
    requires forall i :: 0 <= i < |t.sessions| ==> t.sessions[i].endMs < now && t.sessions[i].endDay <= endDay
    ensures DaysAgree(EndSleep(t, now, newId, endDay).sessions)
  {
    var r := EndSleep(t, now, newId, endDay).sessions;
    if t.active.Some? {
      var s := r[|t.sessions|];
      assert r == t.sessions + [s];
      assert forall y :: y in r && y != s ==> y in t.sessions;
    }
  }

  /** Starting and then ending a session with no time in between logs a
      zero-minute session and returns to the idle form. */
  lemma StartThenEnd(t: Tracker, now: int, newId: string, endDay: int)
    ensures var r := EndSleep(StartSleep(t, now), now, newId, endDay);
      && r.sessions == t.sessions + [Session(newId, now, now, endDay, 0, t.quality, t.notes)]
      && r == Initial(r.sessions, None)
  {
  }
}
