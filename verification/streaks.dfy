/** The consecutive-days streak of src/components/SleepGoals.tsx
    (`checkConsecutiveDays`): sort the sessions by end time, newest first,
    then walk from the newest end day backwards counting days. */
module Streaks {
  import opened Numbers
  import opened Sessions

  /** The `target` argument: a finite number, at which the walk stops once
      the streak reaches it, or `Infinity`, which never stops it. */
  datatype Cap = Unbounded | UpTo(target: int)

  predicate SortedByEndDesc(r: seq<Session>)
  {
    forall i, j :: 0 <= i < j < |r| ==> r[j].endMs <= r[i].endMs
  }

  predicate NonIncreasing(d: seq<int>)
  {
    forall i, j :: 0 <= i < j < |d| ==> d[j] <= d[i]
  }

  /** Putting a session that ended no earlier than all of a sorted list in
      front keeps it sorted. */
  lemma ConsSorted(h: Session, t: seq<Session>)
    requires SortedByEndDesc(t)
    requires forall k :: 0 <= k < |t| ==> t[k].endMs <= h.endMs
    ensures SortedByEndDesc([h] + t)
  {
    var o := [h] + t;
    forall i, j | 0 <= i < j < |o|
      ensures o[j].endMs <= o[i].endMs
    {
      assert o[j] == t[j - 1];
      if i > 0 {
        assert o[i] == t[i - 1];
      }
    }
  }

  /** Insert x in front of the first element that ended no later than it.
      Equal end times keep their input order, as the stable Array.sort does. */
  function InsertByEnd(x: Session, r: seq<Session>): (o: seq<Session>)
    requires SortedByEndDesc(r)
    ensures SortedByEndDesc(o)
    ensures multiset(o) == multiset(r) + multiset{x}
    ensures |o| == |r| + 1
    ensures o[0] == x || (|r| > 0 && o[0] == r[0])
  {
    if |r| == 0 || r[0].endMs <= x.endMs then
      ConsSorted(x, r);
      [x] + r
    else
      var rest := InsertByEnd(x, r[1..]);
      assert forall k :: 0 <= k < |rest| ==> rest[k].endMs <= rest[0].endMs <= r[0].endMs;
      ConsSorted(r[0], rest);
      assert r == [r[0]] + r[1..];
      [r[0]] + rest
  }

  /** `[...sessions].sort((a, b) => end(b) - end(a))`. */
  function SortByEndDesc(ss: seq<Session>): (r: seq<Session>)
    ensures SortedByEndDesc(r)
    ensures multiset(r) == multiset(ss)
    ensures |r| == |ss|
  {
    if |ss| == 0 then []
    else
      assert ss == [ss[0]] + ss[1..];
      InsertByEnd(ss[0], SortByEndDesc(ss[1..]))
  }

  function EndDays(r: seq<Session>): (d: seq<int>)
    ensures |d| == |r|
    ensures forall i :: 0 <= i < |r| ==> d[i] == r[i].endDay
  {
    seq(|r|, i requires 0 <= i < |r| => r[i].endDay)
  }

  /** The loop of `checkConsecutiveDays` from index i on, with `anchor` the
      day of `currentDate` and `streak` the count so far. A gap of exactly one
      day extends the run (and may reach a finite target); a gap of more
      than one day ends it; any other gap (the same day) is skipped. */
  function WalkFrom(days: seq<int>, i: nat, anchor: int, streak: nat, cap: Cap): (r: nat)
    requires i <= |days|
    ensures streak <= r <= streak + (|days| - i)
    decreases |days| - i
  {
    if i == |days| then streak
    else
      var gap := anchor - days[i];
      if gap == 1 then
        if cap.UpTo? && streak + 1 >= cap.target then streak + 1
        else WalkFrom(days, i + 1, days[i], streak + 1, cap)
      else if gap > 1 then streak
      else WalkFrom(days, i + 1, anchor, streak, cap)
  }

  /** `checkConsecutiveDays(target)`: 0 without sessions, otherwise a run of
      at least one day and at most one day per session. */
  function ConsecutiveDays(ss: seq<Session>, cap: Cap): (r: nat)
    ensures r == 0 <==> |ss| == 0
    ensures r <= |ss|
  {
    if |ss| == 0 then 0
    else
      var days := EndDays(SortByEndDesc(ss));
      WalkFrom(days, 1, days[0], 1, cap)
  }

  /** The latest end day in a non-empty list. */
  function LatestDay(ss: seq<Session>): (top: int)
    requires |ss| > 0
    ensures top in DaysOf(ss)
    ensures forall s :: s in ss ==> s.endDay <= top
    ensures forall d :: d in DaysOf(ss) ==> d <= top
  {
    if |ss| == 1 then ss[0].endDay
    else
      var rest := LatestDay(ss[1..]);
      assert forall s :: s in ss ==> s == ss[0] || s in ss[1..];
      if ss[0].endDay >= rest then ss[0].endDay else rest
  }

  /** k is the length of the run of consecutive days ending at `top`: the
      days top, top-1, ..., top-k+1 all occur and top-k does not. */
  predicate IsRun(days: set<int>, top: int, k: int)
  {
    && k >= 1
    && (forall day :: top - k < day <= top ==> day in days)
    && top - k !in days
  }

  /** A run length is unique. */
  lemma RunUnique(days: set<int>, top: int, k1: int, k2: int)
    requires IsRun(days, top, k1) && IsRun(days, top, k2)
    ensures k1 == k2
  {
  }

  /** Sorting neither loses nor invents sessions. */
  lemma SortKeepsSessions(ss: seq<Session>)
    ensures forall s :: s in SortByEndDesc(ss) <==> s in ss
  {
    var r := SortByEndDesc(ss);
    forall s
      ensures s in r <==> s in ss
    {
      assert s in r <==> s in multiset(r);
      assert s in ss <==> s in multiset(ss);
    }
  }

  /** Sorting by end time lays the end days out newest first. */
  lemma SortedDaysNonIncreasing(ss: seq<Session>)
    requires DaysAgree(ss)
    ensures NonIncreasing(EndDays(SortByEndDesc(ss)))
  {
    var r := SortByEndDesc(ss);
    SortKeepsSessions(ss);
    forall i, j | 0 <= i < j < |r|
      ensures r[j].endDay <= r[i].endDay
    {
      assert r[i] in ss && r[j] in ss;
    }
  }

  /** The sorted list has the same end days as the input. */
  lemma SortedDaysAreDaysOf(ss: seq<Session>)
    ensures SetOf(EndDays(SortByEndDesc(ss))) == DaysOf(ss)
  {
    var r := SortByEndDesc(ss);
    var d := EndDays(r);
    SortKeepsSessions(ss);
    forall day | day in d
      ensures day in DaysOf(ss)
    {
      var k :| 0 <= k < |d| && d[k] == day;
      assert r[k] in ss;
    }
    forall day | day in DaysOf(ss)
      ensures day in d
    {
      var s :| s in ss && s.endDay == day;
      assert s in r;
      var k :| 0 <= k < |r| && r[k] == s;
      assert d[k] == day;
    }
  }

  /** The head of a list sorted newest first ends on a day no earlier than
      any other session of the same list. */
  lemma HeadIsLatest(r: seq<Session>)
    requires |r| > 0 && SortedByEndDesc(r) && DaysAgree(r)
    ensures forall s :: s in r ==> s.endDay <= r[0].endDay
  {
    forall s | s in r
      ensures s.endDay <= r[0].endDay
    {
      var k :| 0 <= k < |r| && r[k] == s;
      assert s.endMs <= r[0].endMs;
    }
  }

  /** The newest sorted session ends on the latest day. */
  lemma SortedFirstIsLatest(ss: seq<Session>)
    requires |ss| > 0 && DaysAgree(ss)
    ensures EndDays(SortByEndDesc(ss))[0] == LatestDay(ss)
  {
    var r := SortByEndDesc(ss);
    SortKeepsSessions(ss);
    assert DaysAgree(r);
    HeadIsLatest(r);
    var top := LatestDay(ss);
    var s :| s in ss && s.endDay == top;
    assert r[0] in ss;
  }

  /** The uncapped walk over newest-first days counts the run of consecutive
      days ending at the first (latest) day. Invariant: the anchor is
      `streak - 1` days before the latest day, it is the day of the last
      element read, and every day from the anchor to the latest has been
      seen. */
  lemma {:induction false} WalkCountsRun(d: seq<int>, i: nat, a: int, s: nat)
    requires NonIncreasing(d)
    requires 1 <= i <= |d| && s >= 1
    requires d[i - 1] == a && a == d[0] - (s - 1)
    requires forall day :: a <= day <= d[0] ==> day in d[..i]
    ensures var r := WalkFrom(d, i, a, s, Unbounded);
      && r >= 1
      && (forall day :: d[0] - r < day <= d[0] ==> day in d)
      && d[0] - r !in d
    decreases |d| - i
  {
    assert forall x :: x in d[..i] ==> x in d;
    if i == |d| {
      assert d[..i] == d;
      RunEndsAtLast(d, a, s);
    } else {
      var gap := a - d[i];
      assert d[..i + 1] == d[..i] + [d[i]];
      if gap == 1 {
        WalkCountsRun(d, i + 1, d[i], s + 1);
      } else if gap > 1 {
        RunEndsAtGap(d, i, a, s);
      } else {
        assert d[i] <= d[i - 1];
        WalkCountsRun(d, i + 1, a, s);
      }
    }
  }

  /** A walk that reads every day stops with the anchor the oldest day, so
      the day before the anchor is absent. */
  lemma RunEndsAtLast(d: seq<int>, a: int, s: nat)
    requires NonIncreasing(d) && |d| >= 1 && s >= 1
    requires d[|d| - 1] == a && a == d[0] - (s - 1)
    ensures d[0] - s !in d
  {
    forall k | 0 <= k < |d|
      ensures d[k] >= a
    {
    }
  }

  /** A walk that meets a gap of two or more days stops there: the day
      before the anchor is absent. */
  lemma RunEndsAtGap(d: seq<int>, i: nat, a: int, s: nat)
    requires NonIncreasing(d) && 1 <= i < |d|
    requires d[i - 1] == a && a - d[i] > 1
    ensures a - 1 !in d
  {
    forall k | 0 <= k < |d|
      ensures d[k] != a - 1
    {
      if k < i {
        assert d[k] >= d[i - 1];
      } else {
        assert d[k] <= d[i];
      }
    }
  }

  function SetOf(d: seq<int>): set<int>
  {
    set x | x in d
  }

  /** WalkCountsRun from the start of a newest-first day list. */
  lemma WalkIsRun(d: seq<int>)
    requires |d| > 0 && NonIncreasing(d)
    ensures IsRun(SetOf(d), d[0], WalkFrom(d, 1, d[0], 1, Unbounded))
  {
    assert d[..1] == [d[0]];
    WalkCountsRun(d, 1, d[0], 1);
  }

  lemma SortedWalkIsRun(ss: seq<Session>)
    requires |ss| > 0 && DaysAgree(ss)
    ensures var d := EndDays(SortByEndDesc(ss));
      IsRun(SetOf(d), d[0], ConsecutiveDays(ss, Unbounded))
  {
    SortedDaysNonIncreasing(ss);
    WalkIsRun(EndDays(SortByEndDesc(ss)));
  }

  /** The uncapped streak is the run of consecutive end days ending at the
      latest one: it depends on the set of end days only. */
  lemma StreakIsRun(ss: seq<Session>)
    requires |ss| > 0 && DaysAgree(ss)
    ensures IsRun(DaysOf(ss), LatestDay(ss), ConsecutiveDays(ss, Unbounded))
  {
    var d := EndDays(SortByEndDesc(ss));
    SortedWalkIsRun(ss);
    SortedDaysAreDaysOf(ss);
    SortedFirstIsLatest(ss);
  }

  /** A finite target only shortens the walk: the capped result is the
      uncapped one limited to max(target, streak + 1), because the test runs
      only after an increment. */
  lemma {:induction false} CapLimitsWalk(d: seq<int>, i: nat, a: int, s: nat, t: int)
    requires i <= |d|
    ensures WalkFrom(d, i, a, s, UpTo(t)) == Min(WalkFrom(d, i, a, s, Unbounded), Max(t, s + 1))
    decreases |d| - i
  {
    if i < |d| {
      var gap := a - d[i];
      if gap == 1 {
        if s + 1 < t {
          CapLimitsWalk(d, i + 1, d[i], s + 1, t);
        }
      } else if gap <= 0 {
        CapLimitsWalk(d, i + 1, a, s, t);
      }
    }
  }

  /** `checkConsecutiveDays(t)` is min(uncapped streak, max(t, 2)): for every
      target t >= 2 it is min(uncapped, t). */
  lemma CappedStreak(ss: seq<Session>, t: int)
    ensures ConsecutiveDays(ss, UpTo(t)) == Min(ConsecutiveDays(ss, Unbounded), Max(t, 2))
    ensures t >= 2 ==> ConsecutiveDays(ss, UpTo(t)) == Min(ConsecutiveDays(ss, Unbounded), t)
  {
    if |ss| > 0 {
      var d := EndDays(SortByEndDesc(ss));
      CapLimitsWalk(d, 1, d[0], 1, t);
    }
  }

  /** The streak does not depend on the order of the stored list. */
  lemma StreakIgnoresOrder(a: seq<Session>, b: seq<Session>, cap: Cap)
    requires multiset(a) == multiset(b)
    requires DaysAgree(a)
    ensures ConsecutiveDays(a, cap) == ConsecutiveDays(b, cap)
  {
    assert |a| == |multiset(a)| == |b|;
    if |a| > 0 {
      assert forall s :: s in a <==> s in b by {
        forall s
          ensures s in a <==> s in b
        {
          assert s in a <==> s in multiset(a);
          assert s in b <==> s in multiset(b);
        }
      }
      assert DaysOf(a) == DaysOf(b);
      assert DaysAgree(b);
      var ta := LatestDay(a);
      var tb := LatestDay(b);
      assert ta <= tb && tb <= ta;
      StreakIsRun(a);
      StreakIsRun(b);
      RunUnique(DaysOf(a), ta, ConsecutiveDays(a, Unbounded), ConsecutiveDays(b, Unbounded));
      match cap
      case Unbounded =>
      case UpTo(t) =>
        CappedStreak(a, t);
        CappedStreak(b, t);
    }
  }

  lemma AppendDays(ss: seq<Session>, x: Session)
    ensures DaysOf(ss + [x]) == DaysOf(ss) + {x.endDay}
  {
    assert forall s :: s in ss + [x] <==> s in ss || s == x;
  }

  lemma AppendLatest(ss: seq<Session>, x: Session)
    requires |ss| > 0
    ensures LatestDay(ss + [x]) == Max(LatestDay(ss), x.endDay)
  {
    var ss' := ss + [x];
    AppendDays(ss, x);
    TopOfSet(DaysOf(ss'), LatestDay(ss'), Max(LatestDay(ss), x.endDay));
  }

  /** A set has at most one greatest element. */
  lemma TopOfSet(days: set<int>, a: int, b: int)
    requires a in days && b in days
    requires forall d :: d in days ==> d <= a
    requires forall d :: d in days ==> d <= b
    ensures a == b
  {
  }

  lemma AppendAgrees(ss: seq<Session>, x: Session)
    requires DaysAgree(ss + [x])
    ensures DaysAgree(ss)
  {
    assert forall s :: s in ss ==> s in ss + [x];
  }

  lemma AppendFacts(ss: seq<Session>, x: Session)
    requires |ss| > 0 && DaysAgree(ss + [x])
    ensures DaysOf(ss + [x]) == DaysOf(ss) + {x.endDay}
    ensures LatestDay(ss + [x]) == Max(LatestDay(ss), x.endDay)
    ensures DaysAgree(ss)
  {
    AppendDays(ss, x);
    AppendLatest(ss, x);
    AppendAgrees(ss, x);
  }

  /** Adding the day after the top to a run extends it by one. */
  lemma RunGrows(days: set<int>, top: int, k: int, days': set<int>, top': int, k': int)
    requires days' == days + {top + 1} && top' == top + 1
    requires IsRun(days, top, k)
    requires IsRun(days', top', k')
    ensures k' == k + 1
  {
    assert IsRun(days', top', k + 1);
    RunUnique(days', top', k + 1, k');
  }

  /** Adding a day already present changes no run. */
  lemma RunSame(days: set<int>, top: int, k: int, k': int, day: int)
    requires day in days
    requires IsRun(days, top, k) && IsRun(days + {day}, top, k')
    ensures k' == k
  {
    assert days + {day} == days;
    RunUnique(days, top, k, k');
  }

  /** Logging a session that ends the day after the latest end day extends
      the uncapped streak by exactly one. */
  lemma NextDayExtendsStreak(ss: seq<Session>, x: Session)
    requires DaysAgree(ss + [x])
    requires |ss| > 0 ==> x.endDay == LatestDay(ss) + 1
    ensures ConsecutiveDays(ss + [x], Unbounded) == ConsecutiveDays(ss, Unbounded) + 1
  {
    if |ss| == 0 {
      assert ss + [x] == [x];
    } else {
      var ss' := ss + [x];
      AppendFacts(ss, x);
      var top := LatestDay(ss);
      assert LatestDay(ss') == top + 1;
      assert DaysOf(ss') == DaysOf(ss) + {top + 1};
      var k := ConsecutiveDays(ss, Unbounded);
      var k' := ConsecutiveDays(ss', Unbounded);
      StreakIsRun(ss);
      StreakIsRun(ss');
      RunGrows(DaysOf(ss), top, k, DaysOf(ss'), top + 1, k');
    }
  }

  /** A second session on the latest day neither extends nor breaks the run. */
  lemma SameDayKeepsStreak(ss: seq<Session>, x: Session)
    requires |ss| > 0 && DaysAgree(ss + [x])
    requires x.endDay == LatestDay(ss)
    ensures ConsecutiveDays(ss + [x], Unbounded) == ConsecutiveDays(ss, Unbounded)
  {
    AppendFacts(ss, x);
    StreakIsRun(ss);
    StreakIsRun(ss + [x]);
    RunSame(DaysOf(ss), LatestDay(ss), ConsecutiveDays(ss, Unbounded), ConsecutiveDays(ss + [x], Unbounded), x.endDay);
  }

  /** A session two or more days after the latest restarts the streak at 1. */
  lemma GapRestartsStreak(ss: seq<Session>, x: Session)
    requires |ss| > 0 && DaysAgree(ss + [x])
    requires x.endDay > LatestDay(ss) + 1
    ensures ConsecutiveDays(ss + [x], Unbounded) == 1
  {
    AppendFacts(ss, x);
    StreakIsRun(ss + [x]);
    RunAfterGap(DaysOf(ss), LatestDay(ss), x.endDay, ConsecutiveDays(ss + [x], Unbounded));
  }

  /** A new top two or more days above every other day is a run of one. */
  lemma RunAfterGap(days: set<int>, top: int, day: int, k: int)
    requires forall d :: d in days ==> d <= top
    requires day > top + 1
    requires IsRun(days + {day}, day, k)
    ensures k == 1
  {
    assert day - 1 !in days + {day};
    assert IsRun(days + {day}, day, 1);
    RunUnique(days + {day}, day, 1, k);
  }

  /** If every one of the k days up to the latest has a session, the
      uncapped streak is at least k. */
  lemma FullDaysGiveStreak(ss: seq<Session>, k: int)
    requires |ss| > 0 && DaysAgree(ss)
    requires forall day :: LatestDay(ss) - k < day <= LatestDay(ss) ==> day in DaysOf(ss)
    ensures ConsecutiveDays(ss, Unbounded) >= k
  {
    StreakIsRun(ss);
  }
}
