/** The history view of src/components/SleepHistory.tsx: deleting a
    session, the newest-first list, the hours-and-minutes format and the
    summary over all sessions. */
module History {
  import opened Options
  import opened Numbers
  import opened Seqs
  import opened Sessions

  /** `deleteSession`: the sessions with the id go, the rest stay. */
  function DeleteSession(ss: seq<Session>, id: string): (r: seq<Session>)
    ensures |r| <= |ss|
    ensures forall i :: 0 <= i < |r| ==> r[i].id != id && r[i] in ss
    ensures forall i :: 0 <= i < |ss| && ss[i].id != id ==> ss[i] in r
  {
    Filter(ss, (s: Session) => s.id != id)
  }

  /** Deleting keeps the survivors in their stored order. */
  lemma DeleteKeepsOrder(a: seq<Session>, b: seq<Session>, id: string)
    ensures DeleteSession(a + b, id) == DeleteSession(a, id) + DeleteSession(b, id)
  {
    FilterConcat(a, b, (s: Session) => s.id != id);
  }

  /** Deleting keeps the day numbers in step with the end instants, so the
      streak facts still apply afterwards. */
  lemma DeleteKeepsDaysAgree(ss: seq<Session>, id: string)
    requires DaysAgree(ss)
    ensures DaysAgree(DeleteSession(ss, id))
  {
    var r := DeleteSession(ss, id);
    assert forall x :: x in r ==> x in ss;
  }

  /** The list as shown: newest (last stored) first. */
  function Displayed(ss: seq<Session>): (r: seq<Session>)
    ensures |r| == |ss|
    ensures forall i :: 0 <= i < |ss| ==> r[i] == ss[|ss| - 1 - i]
  {
    Reverse(ss)
  }

  /** Deleting from the store and then showing it is the same as deleting
      from what is shown, and showing loses nothing. */
  lemma DeleteCommutesWithDisplay(ss: seq<Session>, id: string)
    ensures Displayed(DeleteSession(ss, id)) == DeleteSession(Displayed(ss), id)
    ensures Reverse(Displayed(ss)) == ss
  {
    FilterReverse(ss, (s: Session) => s.id != id);
    ReverseInvolutive(ss);
  }

  /** `formatDuration` as written: hours by floor, minutes by rounding the
      remainder. For a fractional average the minutes can round up to 60.
      Below zero the remainder takes the sign of the input, so unless the
      input is a whole number of hours the parts add up to an hour less
      than the rounded input. */
  function FormatDurationAsWritten(m: real): (r: (int, int))
    ensures r.0 == (m / 60.0).Floor
    ensures m >= 0.0 ==> r.0 >= 0 && 0 <= r.1 <= 60 && r.0 * 60 + r.1 == Round(m)
    ensures m < 0.0 ==> -60 <= r.1 <= 0
    ensures m < 0.0 && (m / 60.0).Floor as real == m / 60.0 ==> r.1 == 0 && r.0 * 60 == Round(m)
    ensures m < 0.0 && (m / 60.0).Floor as real != m / 60.0 ==> r.0 * 60 + r.1 == Round(m) - 60
  {
    var h := (m / 60.0).Floor;
    if m >= 0.0 then
      assert JsRemReal(m, 60) == m - (h * 60) as real;
      RoundShift(m, h * 60);
      (h, Round(JsRemReal(m, 60)))
    else
      NegativeJsRemReal(m, 60);
      if h as real == m / 60.0 then
        RoundShift(m, h * 60);
        (h, Round(JsRemReal(m, 60)))
      else
        RoundShift(m, (h + 1) * 60);
        (h, Round(JsRemReal(m, 60)))
  }

  /** Rounding commutes with taking off a whole number. */
  lemma RoundShift(x: real, k: int)
    ensures Round(x - k as real) == Round(x) - k
  {
  }

  /** On whole minutes, as every stored session has, the format is exact. */
  lemma AsWrittenExactOnWholeMinutes(m: int)
    requires m >= 0
    ensures var (h, mins) := FormatDurationAsWritten(m as real);
      0 <= mins < 60 && h * 60 + mins == m
  {
    var (h, mins) := FormatDurationAsWritten(m as real);
    var rem := JsRemReal(m as real, 60);
    assert rem == m as real - h as real * 60.0;
    assert (m - h * 60) as real == rem;
  }

  /** A 7-night mean of 119.6 minutes is shown as "1h 60m". */
  lemma AsWrittenShowsSixtyMinutes()
    ensures FormatDurationAsWritten(119.6) == (1, 60)
  {
    assert (119.6 / 60.0).Floor == 1;
    assert JsRemReal(119.6, 60) == 59.6;
  }

  /** The evidently intended format: round to whole minutes first, then
      split. The minutes stay below 60 and the parts add up to the rounded
      value. */
  function FormatDuration(m: real): (r: (int, int))
    ensures 0 <= r.1 < 60
    ensures m >= 0.0 ==> r.0 >= 0
    ensures r.0 * 60 + r.1 == Round(m)
    ensures Abs((r.0 * 60 + r.1) as real - m) <= 0.5
  {
    var total := Round(m);
    (total / 60, total % 60)
  }

  /** The corrected format agrees with the written one wherever the written
      one is right: on every whole number of minutes. */
  lemma FormatsAgreeOnWholeMinutes(m: int)
    requires m >= 0
    ensures FormatDuration(m as real) == FormatDurationAsWritten(m as real)
  {
    AsWrittenExactOnWholeMinutes(m);
    assert Round(m as real) == m;
  }

  /** The summary card: count, mean duration, mean rating and total hours
      over every stored session. */
  datatype Summary = Summary(count: nat, meanDuration: real, meanQuality: real, totalHours: real)

  /** The card is shown only for a non-empty list, so no mean divides by
      zero. */
  function HistorySummary(ss: seq<Session>): (r: Option<Summary>)
    ensures r.None? <==> |ss| == 0
    ensures r.Some? ==>
      && r.value.count == |ss|
      && r.value.meanDuration * |ss| as real == TotalMinutes(ss) as real
      && r.value.meanQuality * |ss| as real == Sum(Qualities(ss)) as real
      && r.value.totalHours * 60.0 == TotalMinutes(ss) as real
  {
    if |ss| == 0 then None
    else Some(Summary(|ss|, Mean(Durations(ss)), Mean(Qualities(ss)), TotalMinutes(ss) as real / 60.0))
  }

  /** With valid ratings the mean rating lies between 1 and 5. */
  lemma SummaryRatingInRange(ss: seq<Session>)
    requires |ss| > 0 && ValidRatings(ss)
    ensures 1.0 <= HistorySummary(ss).value.meanQuality <= 5.0
  {
    MeanInRange(Qualities(ss), 1, 5);
  }
}
