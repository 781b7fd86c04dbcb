/** The sleep session record and the windowed statistics every view derives
    from the stored list (src/App.tsx SleepSession; the `slice(-7)` averages
    repeated in the goals, insights, dashboard and analytics views). */
module Sessions {
  import opened Numbers
  import opened Seqs

  /** One recorded night. Times are epoch milliseconds (the source stores ISO
      strings of the same instants). `endDay` is the local calendar day of
      `endMs` as a day number; the streak code compares only those. In the
      source the day distance is floor((midnight1 - midnight2) / 86400000),
      so across a 23-hour daylight-saving day two adjacent dates read as the
      same day; the abstract day number does not reproduce that. */
  datatype Session = Session(
    id: string,
    startMs: int,
    endMs: int,
    endDay: int,
    duration: int,   // whole minutes
    quality: int,    // rating 1..5
    notes: string)

  /** The day number is a monotone function of the end instant: a later end
      never falls on an earlier day. Local midnight is monotone in time, so
      every stored list has this property. */
  predicate DaysAgree(ss: seq<Session>)
  {
    forall x, y :: x in ss && y in ss && x.endMs <= y.endMs ==> x.endDay <= y.endDay
  }

  /** The calendar days on which some session ended. */
  function DaysOf(ss: seq<Session>): set<int>
  {
    set s | s in ss :: s.endDay
  }

  function Durations(ss: seq<Session>): (r: seq<int>)
    ensures |r| == |ss|
    ensures forall i :: 0 <= i < |ss| ==> r[i] == ss[i].duration
  {
    seq(|ss|, i requires 0 <= i < |ss| => ss[i].duration)
  }

  function Qualities(ss: seq<Session>): (r: seq<int>)
    ensures |r| == |ss|
    ensures forall i :: 0 <= i < |ss| ==> r[i] == ss[i].quality
  {
    seq(|ss|, i requires 0 <= i < |ss| => ss[i].quality)
  }

  /** Total minutes slept over the list. */
  function TotalMinutes(ss: seq<Session>): int
  {
    Sum(Durations(ss))
  }

  /** Mean duration (minutes) of the last min(n, |ss|) sessions; 0 when empty. */
  function WindowMeanDuration(ss: seq<Session>, n: nat): (r: real)
    ensures |ss| == 0 || n == 0 ==> r == 0.0
    ensures |ss| > 0 && n > 0 ==>
      r * Min(n, |ss|) as real == Sum(Durations(ss[|ss| - Min(n, |ss|)..])) as real
  {
    assert Last(ss, n) == ss[|ss| - Min(n, |ss|)..];
    if |ss| > 0 && n > 0 then
      MeanTimesCount(Durations(Last(ss, n)), Min(n, |ss|));
      Mean(Durations(Last(ss, n)))
    else
      Mean(Durations(Last(ss, n)))
  }

  /** Mean quality rating of the last min(n, |ss|) sessions; 0 when empty. */
  function WindowMeanQuality(ss: seq<Session>, n: nat): (r: real)
    ensures |ss| == 0 || n == 0 ==> r == 0.0
    ensures |ss| > 0 && n > 0 ==>
      r * Min(n, |ss|) as real == Sum(Qualities(ss[|ss| - Min(n, |ss|)..])) as real
  {
    assert Last(ss, n) == ss[|ss| - Min(n, |ss|)..];
    if |ss| > 0 && n > 0 then
      MeanTimesCount(Qualities(Last(ss, n)), Min(n, |ss|));
      Mean(Qualities(Last(ss, n)))
    else
      Mean(Qualities(Last(ss, n)))
  }

  /** Number of sessions rated exactly q (`filter(s => s.quality === q).length`). */
  function CountRated(ss: seq<Session>, q: int): nat
  {
    |Filter(ss, (s: Session) => s.quality == q)|
  }

  predicate ValidRatings(ss: seq<Session>)
  {
    forall i :: 0 <= i < |ss| ==> 1 <= ss[i].quality <= 5
  }

  lemma DurationsConcat(a: seq<Session>, b: seq<Session>)
    ensures Durations(a + b) == Durations(a) + Durations(b)
  {
  }

  /** The window is the last min(n, |ss|) sessions, and both window means
      are 0 for an empty list. */
  lemma WindowMeanShape(ss: seq<Session>, n: nat)
    ensures Last(ss, n) == ss[|ss| - Min(n, |ss|)..]
    ensures |ss| == 0 ==> WindowMeanDuration(ss, n) == 0.0 && WindowMeanQuality(ss, n) == 0.0
  {
  }

  /** A window of valid ratings holds valid ratings. */
  lemma LastKeepsRatings(ss: seq<Session>, n: nat)
    requires ValidRatings(ss)
    ensures ValidRatings(Last(ss, n))
  {
  }

  /** With valid ratings a non-empty window's mean rating lies in 1..5. */
  lemma WindowQualityInRange(ss: seq<Session>, n: nat)
    requires ValidRatings(ss) && |ss| > 0 && n > 0
    ensures 1.0 <= WindowMeanQuality(ss, n) <= 5.0
  {
    LastKeepsRatings(ss, n);
    MeanInRange(Qualities(Last(ss, n)), 1, 5);
  }
}
