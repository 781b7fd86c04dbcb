/** The analytics view of src/components/SleepAnalytics.tsx: the chart
    series over the last 30 sessions, the all-time and 7-session figures and
    the rating histogram. */
module Analytics {
  import opened Numbers
  import opened Seqs
  import opened Sessions

  /** One chart point: its 1-based position, the duration in hours to a
      tenth, and the rating. The date label is left out. */
  datatype ChartPoint = ChartPoint(index: nat, hours: real, quality: int)

  /** The points of the last min(n, 30) sessions, oldest first. The
      hours are `Number(x.toFixed(1))`: the magnitude rounded to tenths, the
      sign kept. */
  function ChartPoints(ss: seq<Session>): (r: seq<ChartPoint>)
    ensures |r| == Min(30, |ss|)
    ensures forall i :: 0 <= i < |r| ==>
      var s := ss[|ss| - |r| + i];
      && r[i].index == i + 1 && r[i].quality == s.quality
      && Abs(r[i].hours - s.duration as real / 60.0) <= 0.05
      && (r[i].hours * 10.0).Floor as real == r[i].hours * 10.0
      && Abs(r[i].hours) == RoundTenths(Abs(s.duration as real / 60.0))
      && (r[i].hours < 0.0 ==> s.duration < 0)
  {
    var w := Last(ss, 30);
    seq(|w|, i requires 0 <= i < |w| => ChartPoint(i + 1, ToFixedTenths(w[i].duration as real / 60.0), w[i].quality))
  }

  /** What the view shows: the "no data" page for an empty history, or the
      full report. */
  datatype Analytics =
    | NoData
    | Report(points: seq<ChartPoint>, totalHours: real, avgHours: real, avgQuality: real,
             avgHours7: real, avgQuality7: real, distribution: seq<nat>)

  /** The histogram: how many sessions carry each rating 1..5. */
  function Distribution(ss: seq<Session>): (r: seq<nat>)
    ensures |r| == 5
    ensures forall i :: 0 <= i < 5 ==> r[i] == CountRated(ss, i + 1)
  {
    seq(5, i requires 0 <= i < 5 => CountRated(ss, i + 1))
  }

  /** The view. An empty history takes the "no data" branch before any mean
      is taken. */
  function Analyze(ss: seq<Session>): (r: Analytics)
    ensures r.NoData? <==> |ss| == 0
    ensures r.Report? ==>
      && r.points == ChartPoints(ss)
      && r.totalHours * 60.0 == TotalMinutes(ss) as real
      && r.avgHours * 60.0 == Mean(Durations(ss))
      && r.avgQuality == Mean(Qualities(ss))
      && r.avgHours7 * 60.0 == WindowMeanDuration(ss, 7)
      && r.avgQuality7 == WindowMeanQuality(ss, 7)
      && r.distribution == Distribution(ss)
  {
    if |ss| == 0 then NoData
    else
      var total := TotalMinutes(ss) as real;
      var n := |ss| as real;
      Report(ChartPoints(ss), total / 60.0, total / n / 60.0, Sum(Qualities(ss)) as real / n,
             WindowMeanDuration(ss, 7) / 60.0, WindowMeanQuality(ss, 7), Distribution(ss))
  }

  /** With at most seven sessions the 7-session figures are the all-time
      ones. */
  lemma ShortHistoryWindowIsAll(ss: seq<Session>)
    requires 0 < |ss| <= 7
    ensures Analyze(ss).avgHours7 == Analyze(ss).avgHours
    ensures Analyze(ss).avgQuality7 == Analyze(ss).avgQuality
  {
  }

  /** With valid ratings every mean rating lies in 1..5. */
  lemma RatingsInRange(ss: seq<Session>)
    requires |ss| > 0 && ValidRatings(ss)
    ensures 1.0 <= Analyze(ss).avgQuality <= 5.0
    ensures 1.0 <= Analyze(ss).avgQuality7 <= 5.0
  {
    MeanInRange(Qualities(ss), 1, 5);
    WindowQualityInRange(ss, 7);
  }

  predicate RatedInRange(s: Session)
  {
    1 <= s.quality <= 5
  }

  function BucketTotal(ss: seq<Session>): nat
  {
    CountRated(ss, 1) + CountRated(ss, 2) + CountRated(ss, 3) + CountRated(ss, 4) + CountRated(ss, 5)
  }

  /** Every session with a rating in 1..5 falls in exactly one bucket. */
  lemma {:induction false} BucketsCountRated(ss: seq<Session>)
    ensures BucketTotal(ss) == |Filter(ss, RatedInRange)|
    decreases |ss|
  {
    if |ss| > 0 {
      BucketsCountRated(ss[1..]);
    }
  }

  /** With valid ratings the histogram accounts for every session. */
  lemma DistributionCoversAll(ss: seq<Session>)
    requires ValidRatings(ss)
    ensures var d := Distribution(ss); d[0] + d[1] + d[2] + d[3] + d[4] == |ss|
  {
    BucketsCountRated(ss);
    FilterKeepsAll(ss, RatedInRange);
  }
}
