/** The insight cards and recommendation list of
    src/components/SleepInsights.tsx: fixed rules over the last 7 and the
    last 30 sessions. */
module Insights {
  import opened Options
  import opened Numbers
  import opened Seqs
  import opened Sessions

  datatype Tone = Positive | Warning | Info

  /** The ten cards the rules can show, named after their titles. */
  datatype Card =
    | StartTracking
    | IncreaseDuration | GreatDuration | ConsiderQuality
    | ImproveQuality | ExcellentQuality
    | ImproveConsistency | ConsistentSchedule
    | ImprovingDuration | DecliningDuration

  function Title(c: Card): string
  {
    match c
    case StartTracking => "Start Tracking Your Sleep"
    case IncreaseDuration => "Increase Sleep Duration"
    case GreatDuration => "Great Sleep Duration!"
    case ConsiderQuality => "Consider Sleep Quality"
    case ImproveQuality => "Improve Sleep Quality"
    case ExcellentQuality => "Excellent Sleep Quality!"
    case ImproveConsistency => "Improve Sleep Consistency"
    case ConsistentSchedule => "Consistent Sleep Schedule"
    case ImprovingDuration => "Improving Sleep Duration"
    case DecliningDuration => "Declining Sleep Duration"
  }

  /** The rule that produces a card, numbered in the order the rules run:
      0 for the onboarding card, then duration, quality, consistency and
      trend. */
  function Rule(c: Card): nat
  {
    match c
    case StartTracking => 0
    case IncreaseDuration => 1
    case GreatDuration => 1
    case ConsiderQuality => 1
    case ImproveQuality => 2
    case ExcellentQuality => 2
    case ImproveConsistency => 3
    case ConsistentSchedule => 3
    case ImprovingDuration => 4
    case DecliningDuration => 4
  }

  /** A shown insight: its tone, its card, and the figure its description
      cites (hours, a rating, or a change in hours), before `toFixed`
      formatting. */
  datatype Insight = Insight(tone: Tone, card: Card, figure: Option<real>)

  const Onboarding := Insight(Info, StartTracking, None)

  /** The duration verdict: exactly one card for every mean, by the 7-9 hour
      band. */
  function DurationInsight(avg: real): (r: Insight)
    ensures r.tone == Warning <==> avg < 420.0
    ensures r.tone == Positive <==> 420.0 <= avg <= 540.0
    ensures r.tone == Info <==> avg > 540.0
    ensures r.figure == Some(avg / 60.0)
    ensures Rule(r.card) == 1
    ensures r.card == IncreaseDuration <==> r.tone == Warning
    ensures r.card == GreatDuration <==> r.tone == Positive
    ensures r.card == ConsiderQuality <==> r.tone == Info
  {
    if avg < 420.0 then Insight(Warning, IncreaseDuration, Some(avg / 60.0))
    else if avg <= 540.0 then Insight(Positive, GreatDuration, Some(avg / 60.0))
    else Insight(Info, ConsiderQuality, Some(avg / 60.0))
  }

  /** The quality verdict: a warning below 3, praise from 4, nothing between. */
  function QualityInsight(avg: real): (r: Option<Insight>)
    ensures r.None? <==> 3.0 <= avg < 4.0
    ensures r.Some? ==> (r.value.tone == Warning <==> avg < 3.0)
    ensures r.Some? ==> (r.value.tone == Positive <==> avg >= 4.0)
    ensures r.Some? ==> r.value.figure == Some(avg)
    ensures r.Some? ==> Rule(r.value.card) == 2
    ensures r.Some? ==> (r.value.card == ImproveQuality <==> r.value.tone == Warning)
    ensures r.Some? ==> (r.value.card == ExcellentQuality <==> r.value.tone == Positive)
  {
    if avg < 3.0 then Some(Insight(Warning, ImproveQuality, Some(avg)))
    else if avg >= 4.0 then Some(Insight(Positive, ExcellentQuality, Some(avg)))
    else None
  }

  /** The consistency verdict over the last-7 window, given once it holds at
      least five sessions: a mean absolute deviation above 90 minutes asks
      for a steadier schedule. */
  function ConsistencyInsight(w: seq<Session>): (r: Option<Insight>)
    ensures r.Some? <==> |w| >= 5
    ensures r.Some? ==> (r.value.tone == Info <==> MeanAbsDeviation(Durations(w)) > 90.0)
    ensures r.Some? ==> (r.value.tone == Positive <==> MeanAbsDeviation(Durations(w)) <= 90.0)
    ensures r.Some? ==> Rule(r.value.card) == 3
    ensures r.Some? ==> (r.value.card == ImproveConsistency <==> r.value.tone == Info)
    ensures r.Some? ==> (r.value.card == ConsistentSchedule <==> r.value.tone == Positive)
    ensures r.Some? ==> r.value.figure.None?
  {
    if |w| < 5 then None
    else if MeanAbsDeviation(Durations(w)) > 90.0 then Some(Insight(Info, ImproveConsistency, None))
    else Some(Insight(Positive, ConsistentSchedule, None))
  }

  /** The week before the last one: `slice(-14, -7)` of the last 30. */
  function PreviousWeek(ss: seq<Session>): seq<Session>
    requires |ss| >= 14
  {
    var m := Last(ss, 30);
    m[|m| - 14..|m| - 7]
  }

  /** The previous week is always seven whole sessions: the seven before the
      last seven of the full list. */
  lemma PreviousWeekIsSessionsBefore(ss: seq<Session>)
    requires |ss| >= 14
    ensures PreviousWeek(ss) == ss[|ss| - 14..|ss| - 7]
    ensures |PreviousWeek(ss)| == 7
    ensures ss[|ss| - 7..] == Last(ss, 7)
  {
    if |ss| > 30 {
      var m := ss[|ss| - 30..];
      assert Last(ss, 30) == m;
      assert m[16..23] == ss[|ss| - 14..|ss| - 7];
    }
  }

  /** The trend verdict, once the last 30 hold two weeks: a change of more
      than half an hour in mean duration between the previous week and the
      last one is reported, in hours rounded to a tenth. */
  function TrendInsight(ss: seq<Session>): (r: Option<Insight>)
    ensures |ss| < 14 ==> r.None?
    ensures |ss| >= 14 ==>
      var recent := WindowMeanDuration(ss, 7);
      var prev := Mean(Durations(PreviousWeek(ss)));
      && (r.Some? <==> (recent > prev + 30.0 || recent < prev - 30.0))
      && (r.Some? ==> (r.value.tone == Positive <==> recent > prev + 30.0))
      && (r.Some? ==> (r.value.tone == Warning <==> recent < prev - 30.0))
      && (r.Some? ==> r.value.figure.Some? && r.value.figure.value >= 0.5)
      && (r.Some? ==> Abs(r.value.figure.value - Abs(recent - prev) / 60.0) <= 0.05)
      && (r.Some? ==> r.value.figure == Some(RoundTenths(Abs(recent - prev) / 60.0)))
    ensures r.Some? ==> Rule(r.value.card) == 4
    ensures r.Some? ==> (r.value.card == ImprovingDuration <==> r.value.tone == Positive)
    ensures r.Some? ==> (r.value.card == DecliningDuration <==> r.value.tone == Warning)
  {
    if |Last(ss, 30)| < 14 then None
    else
      var recent := WindowMeanDuration(ss, 7);
      var prev := Mean(Durations(PreviousWeek(ss)));
      if recent > prev + 30.0 then
        Some(Insight(Positive, ImprovingDuration, Some(RoundTenths((recent - prev) / 60.0))))
      else if recent < prev - 30.0 then
        Some(Insight(Warning, DecliningDuration, Some(RoundTenths((prev - recent) / 60.0))))
      else None
  }

  /** The cards of a non-empty history in rule order: the duration verdict,
      then whichever of the other three verdicts apply. */
  function Assemble(d: Insight, q: Option<Insight>, c: Option<Insight>, t: Option<Insight>): (r: seq<Insight>)
    ensures 1 <= |r| <= 4 && r[0] == d
  {
    [d] + AsSeq(q) + AsSeq(c) + AsSeq(t)
  }

  /** Rule `k` shows exactly the card `o`: every card of that rule in `r`
      is `o`'s, and `o`'s card, if any, is in `r`. */
  predicate Shows(r: seq<Insight>, k: nat, o: Option<Insight>)
  {
    && (forall x :: x in r && Rule(x.card) == k ==> o == Some(x))
    && (o.Some? ==> o.value in r)
  }

  /** The assembled cards hold each rule's verdict and nothing else for
      that rule. */
  lemma AssembleShows(d: Insight, q: Option<Insight>, c: Option<Insight>, t: Option<Insight>)
    requires Rule(d.card) == 1
    requires q.Some? ==> Rule(q.value.card) == 2
    requires c.Some? ==> Rule(c.value.card) == 3
    requires t.Some? ==> Rule(t.value.card) == 4
    ensures var r := Assemble(d, q, c, t);
      Shows(r, 1, Some(d)) && Shows(r, 2, q) && Shows(r, 3, c) && Shows(r, 4, t)
  {
    var r := Assemble(d, q, c, t);
    forall x | x in r
      ensures x == d || Some(x) == q || Some(x) == c || Some(x) == t
    {
      assert x in [d] || x in AsSeq(q) || x in AsSeq(c) || x in AsSeq(t);
    }
    assert d in r;
    assert q.Some? ==> q.value in r by {
      if q.Some? { assert r[1] == q.value; }
    }
    assert c.Some? ==> c.value in r by {
      if c.Some? { assert r[|r| - |AsSeq(t)| - 1] == c.value; }
    }
    assert t.Some? ==> t.value in r by {
      if t.Some? { assert r[|r| - 1] == t.value; }
    }
  }

  /** Every card the rules produce. */
  function AllInsights(ss: seq<Session>): seq<Insight>
  {
    if |ss| == 0 then [Onboarding]
    else
      Assemble(
        DurationInsight(WindowMeanDuration(ss, 7)),
        QualityInsight(WindowMeanQuality(ss, 7)),
        ConsistencyInsight(Last(ss, 7)),
        TrendInsight(ss))
  }

  /** `generateInsights`: the cards, at most six of them. */
  function GenerateInsights(ss: seq<Session>): (r: seq<Insight>)
    ensures |ss| == 0 ==> r == [Onboarding]
    ensures 1 <= |r| <= 6
    ensures |ss| > 0 ==> r[0] == DurationInsight(WindowMeanDuration(ss, 7))
    ensures |ss| > 0 ==>
      && Shows(r, 1, Some(DurationInsight(WindowMeanDuration(ss, 7))))
      && Shows(r, 2, QualityInsight(WindowMeanQuality(ss, 7)))
      && Shows(r, 3, ConsistencyInsight(Last(ss, 7)))
      && Shows(r, 4, TrendInsight(ss))
  {
    if |ss| > 0 then
      AssembleShows(
        DurationInsight(WindowMeanDuration(ss, 7)),
        QualityInsight(WindowMeanQuality(ss, 7)),
        ConsistencyInsight(Last(ss, 7)),
        TrendInsight(ss));
      Take(AllInsights(ss), 6)
    else
      Take(AllInsights(ss), 6)
  }

  /** The cap of six never cuts a card: there are one to four of them. */
  lemma CapNeverTrims(ss: seq<Session>)
    ensures GenerateInsights(ss) == AllInsights(ss)
    ensures 1 <= |GenerateInsights(ss)| <= 4
  {
  }

  /** At most one card per rule, in the order the rules run. */
  predicate InRuleOrder(r: seq<Insight>)
  {
    forall i, j :: 0 <= i < j < |r| ==> Rule(r[i].card) < Rule(r[j].card)
  }

  /** Appending the optional card of rule `k` to cards of earlier rules
      keeps the order. */
  lemma PushInOrder(a: seq<Insight>, o: Option<Insight>, k: nat)
    requires InRuleOrder(a)
    requires forall i :: 0 <= i < |a| ==> Rule(a[i].card) < k
    requires o.Some? ==> Rule(o.value.card) == k
    ensures InRuleOrder(a + AsSeq(o))
    ensures forall i :: 0 <= i < |a + AsSeq(o)| ==> Rule((a + AsSeq(o))[i].card) <= k
  {
    if o.Some? {
      assert AsSeq(o) == [o.value];
    } else {
      assert a + AsSeq(o) == a;
    }
  }

  lemma AssembleInOrder(d: Insight, q: Option<Insight>, c: Option<Insight>, t: Option<Insight>)
    requires Rule(d.card) == 1
    requires q.Some? ==> Rule(q.value.card) == 2
    requires c.Some? ==> Rule(c.value.card) == 3
    requires t.Some? ==> Rule(t.value.card) == 4
    ensures InRuleOrder(Assemble(d, q, c, t))
  {
    var a := [d];
    PushInOrder(a, q, 2);
    var b := a + AsSeq(q);
    PushInOrder(b, c, 3);
    var e := b + AsSeq(c);
    PushInOrder(e, t, 4);
  }

  /** The cards of a history come one per rule in rule order; in particular
      the duration verdict is the first card and no other rule repeats it. */
  lemma CardsInRuleOrder(ss: seq<Session>)
    requires |ss| > 0
    ensures InRuleOrder(GenerateInsights(ss))
    ensures Rule(GenerateInsights(ss)[0].card) == 1
    ensures forall i :: 1 <= i < |GenerateInsights(ss)| ==> Rule(GenerateInsights(ss)[i].card) > 1
  {
    CapNeverTrims(ss);
    var d := DurationInsight(WindowMeanDuration(ss, 7));
    var q := QualityInsight(WindowMeanQuality(ss, 7));
    var c := ConsistencyInsight(Last(ss, 7));
    var t := TrendInsight(ss);
    assert AllInsights(ss) == Assemble(d, q, c, t);
    AssembleInOrder(d, q, c, t);
  }

  /** A single short, poorly rated night: a duration warning and a quality
      warning, and no consistency or trend card. */
  lemma OneShortPoorNight(s: Session)
    requires s.duration == 360 && s.quality == 2
    ensures GenerateInsights([s]) == [
      Insight(Warning, IncreaseDuration, Some(6.0)),
      Insight(Warning, ImproveQuality, Some(2.0))]
  {
    var ss := [s];
    CapNeverTrims(ss);
    MeanOfConstant(Durations(ss), 360);
    MeanOfConstant(Qualities(ss), 2);
    var d := DurationInsight(WindowMeanDuration(ss, 7));
    var q := QualityInsight(WindowMeanQuality(ss, 7));
    assert d == Insight(Warning, IncreaseDuration, Some(6.0));
    assert q == Some(Insight(Warning, ImproveQuality, Some(2.0)));
    assert ConsistencyInsight(Last(ss, 7)).None? && TrendInsight(ss).None?;
    assert AllInsights(ss) == Assemble(d, q, None, None);
    assert Assemble(d, q, None, None) == [d, q.value];
  }

  /** Two weeks, 400 minutes a night and then 500: an improving trend of
      1.7 hours (100 minutes, rounded to a tenth). */
  lemma TwoWeeksImproving(ss: seq<Session>)
    requires |ss| == 14
    requires forall i :: 0 <= i < 7 ==> ss[i].duration == 400
    requires forall i :: 7 <= i < 14 ==> ss[i].duration == 500
    ensures TrendInsight(ss) == Some(Insight(Positive, ImprovingDuration, Some(1.7)))
  {
    PreviousWeekIsSessionsBefore(ss);
    MeanOfConstant(Durations(PreviousWeek(ss)), 400);
    MeanOfConstant(Durations(Last(ss, 7)), 500);
    assert RoundTenths(100.0 / 60.0) == 1.7;
  }

  const StaticTips: seq<string> := [
    "Maintain a consistent sleep schedule, even on weekends",
    "Create a relaxing bedtime routine 30-60 minutes before sleep",
    "Keep your bedroom cool, dark, and quiet",
    "Avoid screens and blue light 1-2 hours before bedtime",
    "Limit caffeine intake after 2 PM",
    "Get regular exercise, but not close to bedtime",
    "Avoid large meals and alcohol before bed",
    "Use your bed only for sleep (not work or entertainment)"
  ]

  const DurationTips: seq<string> := [
    "Set a bedtime alarm to remind you to start winding down",
    "Try gradually moving your bedtime 15 minutes earlier each week"
  ]

  const QualityTips: seq<string> := [
    "Consider using relaxation techniques like deep breathing or meditation",
    "Evaluate your mattress and pillow - they should be comfortable and supportive"
  ]

  /** The personal tips: two for a short mean, two for a low rating. */
  function PersonalTips(ss: seq<Session>): (r: seq<string>)
    ensures |r| == (if WindowMeanDuration(ss, 7) < 420.0 then 2 else 0) + (if WindowMeanQuality(ss, 7) < 3.0 then 2 else 0)
    ensures WindowMeanDuration(ss, 7) < 420.0 ==> r[..2] == DurationTips
    ensures WindowMeanQuality(ss, 7) < 3.0 ==> r[|r| - 2..] == QualityTips
    ensures forall i :: 0 <= i < |r| ==>
      (r[i] in DurationTips ==> WindowMeanDuration(ss, 7) < 420.0) && (r[i] in QualityTips ==> WindowMeanQuality(ss, 7) < 3.0)
  {
    (if WindowMeanDuration(ss, 7) < 420.0 then DurationTips else [])
      + (if WindowMeanQuality(ss, 7) < 3.0 then QualityTips else [])
  }

  /** `getRecommendations`: the personal tips first, then the general ones,
      eight in all. */
  function Recommendations(ss: seq<Session>): (r: seq<string>)
    ensures |r| == 8
    ensures r[..|PersonalTips(ss)|] == PersonalTips(ss)
    ensures r[|PersonalTips(ss)|..] == StaticTips[..8 - |PersonalTips(ss)|]
  {
    var tips := PersonalTips(ss);
    assert |tips| <= 4;
    assert (tips + StaticTips)[..8] == tips + StaticTips[..8 - |tips|];
    Take(tips + StaticTips, 8)
  }

  /** With no sessions both means read 0, so all four personal tips lead the
      list and only the first four general tips remain. */
  lemma EmptyHistoryGetsAllTips()
    ensures Recommendations([]) == DurationTips + QualityTips + StaticTips[..4]
  {
  }
}
