/** `calculate_improvement_stats` of Backend/routes/session_results.py: a
    finished session's accuracy and time compared with the user's earlier
    results on the same study session, most recent first. Accuracies are
    exact rationals; Python's `round(x, 2)` is the `round` input. */
module SessionResults {

  /** The two columns of a `session_results` row that the comparison reads. */
  datatype Attempt = Attempt(accuracy: real, timeSpent: int)

  datatype Trend = FirstAttempt | Improving | Declining | Stable

  /** The returned dictionary: the short form for a first attempt, the full
      comparison otherwise. */
  datatype ImprovementStats =
    | FirstAttemptStats
    | Compared(accuracyImprovement: real, timeImprovement: int, trend: Trend,
               currentVsAverage: real, totalPreviousAttempts: nat,
               bestPreviousAccuracy: real, isPersonalBest: bool)
  {
    function IsFirstAttempt(): bool { FirstAttemptStats? }
    /** The keys both forms share; the first-attempt form has zeros. */
    function AccuracyImprovement(): real { if Compared? then accuracyImprovement else 0.0 }
    function TimeImprovement(): int { if Compared? then timeImprovement else 0 }
    function PerformanceTrend(): Trend { if Compared? then trend else FirstAttempt }
  }

  /** The trend margin, in percentage points. */
  const Margin: real := 5.0

  function SumAccuracy(s: seq<Attempt>): real {
    if s == [] then 0.0 else s[0].accuracy + SumAccuracy(s[1..])
  }

  function Mean(s: seq<Attempt>): real
    requires s != []
  {
    SumAccuracy(s) / (|s| as real)
  }

  /** `max(r['accuracy_percentage'] for r in previous)`. */
  function MaxAccuracy(s: seq<Attempt>): (m: real)
    requires s != []
    ensures exists i :: 0 <= i < |s| && s[i].accuracy == m
    ensures forall i :: 0 <= i < |s| ==> s[i].accuracy <= m
  {
    if |s| == 1 then s[0].accuracy
    else
      var rest := MaxAccuracy(s[1..]);
      assert forall i :: 1 <= i < |s| ==> s[i].accuracy == s[1..][i - 1].accuracy;
      if s[0].accuracy >= rest then s[0].accuracy else rest
  }

  function TrendOf(current: real, average: real): Trend {
    if current > average + Margin then Improving
    else if current < average - Margin then Declining
    else Stable
  }

  function ImprovementStatsOf(current: Attempt, previous: seq<Attempt>, round: real -> real): ImprovementStats {
    if previous == [] then FirstAttemptStats
    else
      var last := previous[0];
      var average := Mean(previous);
      var best := MaxAccuracy(previous);
      Compared(round(current.accuracy - last.accuracy), last.timeSpent - current.timeSpent,
               TrendOf(current.accuracy, average), round(current.accuracy - average),
               |previous|, best, current.accuracy > best)
  }

  /** The first attempt is recognised exactly when there is no earlier
      result, and then it reports no change and the "first_attempt" trend. */
  lemma FirstAttemptIff(current: Attempt, previous: seq<Attempt>, round: real -> real)
    ensures var st := ImprovementStatsOf(current, previous, round);
      (st.IsFirstAttempt() <==> previous == [])
      && (st.IsFirstAttempt() ==>
            st.AccuracyImprovement() == 0.0 && st.TimeImprovement() == 0
            && st.PerformanceTrend() == FirstAttempt)
      && (!st.IsFirstAttempt() ==> st.PerformanceTrend() != FirstAttempt)
  {
  }

  /** The improvements compare with the most recent earlier result only:
      results behind it do not change them. */
  lemma ComparedWithLatest(current: Attempt, last: Attempt, older: seq<Attempt>, older2: seq<Attempt>,
                           round: real -> real)
    ensures var a := ImprovementStatsOf(current, [last] + older, round);
      var b := ImprovementStatsOf(current, [last] + older2, round);
      a.AccuracyImprovement() == b.AccuracyImprovement() == round(current.accuracy - last.accuracy)
      && a.TimeImprovement() == b.TimeImprovement() == last.timeSpent - current.timeSpent
  {
  }

  /** The trend compares with the mean of the earlier accuracies, stated
      without division: n earlier results with total S are "improving"
      exactly when n times the current accuracy exceeds S + 5n, "declining"
      exactly when it is below S - 5n, and "stable" otherwise. */
  lemma TrendWithoutDivision(current: Attempt, previous: seq<Attempt>, round: real -> real)
    requires previous != []
    ensures TrendMatchesTotal(ImprovementStatsOf(current, previous, round).trend, current.accuracy,
                              SumAccuracy(previous), |previous| as real)
  {
    var n := |previous| as real;
    var total := SumAccuracy(previous);
    var average := Mean(previous);
    assert n > 0.0;
    assert average == total / n;
    DivMul(total, n);
    assert average * n == total;
    var t := ImprovementStatsOf(current, previous, round).trend;
    assert t == TrendOf(current.accuracy, average);
    TrendScaled(current.accuracy, average, total, n);
  }

  lemma DivMul(total: real, n: real)
    requires n > 0.0
    ensures (total / n) * n == total
  {
  }

  /** `t` is the trend of accuracy `c` against `n` results totalling `total`. */
  predicate TrendMatchesTotal(t: Trend, c: real, total: real, n: real) {
    (t == Improving <==> c * n > total + Margin * n)
    && (t == Declining <==> c * n + Margin * n < total)
    && (t == Stable <==> total - Margin * n <= c * n <= total + Margin * n)
  }

  lemma TrendScaled(c: real, average: real, total: real, n: real)
    requires n > 0.0 && average * n == total
    ensures TrendMatchesTotal(TrendOf(c, average), c, total, n)
  {
    ScaledTrend(c, average, total, n);
  }

  /** Comparing with the mean is comparing n-fold values with the total. */
  lemma ScaledTrend(c: real, average: real, total: real, n: real)
    requires n > 0.0 && average * n == total
    ensures c > average + Margin <==> c * n > total + Margin * n
    ensures c < average - Margin <==> c * n < total - Margin * n
  {
    ScaleLess(c, average + Margin, n, total + Margin * n);
    ScaleLess(c, average - Margin, n, total - Margin * n);
  }

  lemma ScaleLess(a: real, b: real, n: real, bn: real)
    requires n > 0.0 && b * n == bn
    ensures a > b <==> a * n > bn
    ensures a < b <==> a * n < bn
  {
    if a > b {
      assert (a - b) * n > 0.0;
    } else {
      assert (b - a) * n >= 0.0;
    }
  }

  /** The best earlier accuracy is one of the earlier accuracies and none
      exceeds it; the count is the number of earlier results. */
  lemma BestPrevious(current: Attempt, previous: seq<Attempt>, round: real -> real)
    requires previous != []
    ensures var st := ImprovementStatsOf(current, previous, round);
      st.totalPreviousAttempts == |previous|
      && (exists i :: 0 <= i < |previous| && previous[i].accuracy == st.bestPreviousAccuracy)
      && (forall i :: 0 <= i < |previous| ==> previous[i].accuracy <= st.bestPreviousAccuracy)
  {
  }

  /** A personal best beats every earlier accuracy strictly: equalling the
      best is not enough. */
  lemma PersonalBestIff(current: Attempt, previous: seq<Attempt>, round: real -> real)
    requires previous != []
    ensures ImprovementStatsOf(current, previous, round).isPersonalBest
      <==> forall i :: 0 <= i < |previous| ==> current.accuracy > previous[i].accuracy
  {
    var best := MaxAccuracy(previous);
    if !(current.accuracy > best) {
      var k :| 0 <= k < |previous| && previous[k].accuracy == best;
      assert !(current.accuracy > previous[k].accuracy);
    }
  }

  /** A tie with an earlier result is not a personal best. */
  lemma TieIsNotBest(current: Attempt, previous: seq<Attempt>, k: nat, round: real -> real)
    requires k < |previous| && previous[k].accuracy == current.accuracy
    ensures !ImprovementStatsOf(current, previous, round).isPersonalBest
  {
    PersonalBestIff(current, previous, round);
  }

  /** The total of n accuracies is at most n times their maximum. */
  lemma {:induction false} SumBelowMax(s: seq<Attempt>, m: real)
    requires forall i :: 0 <= i < |s| ==> s[i].accuracy <= m
    ensures SumAccuracy(s) <= (|s| as real) * m
    decreases |s|
  {
    if s != [] {
      assert forall i :: 0 <= i < |s| - 1 ==> s[1..][i].accuracy == s[i + 1].accuracy;
      SumBelowMax(s[1..], m);
    }
  }

  lemma ImprovingAboveBound(t: Trend, c: real, best: real, total: real, n: real)
    requires TrendMatchesTotal(t, c, total, n)
    requires n > 0.0 && total <= n * best && c > best + Margin
    ensures t == Improving
  {
    ScaleLess(c, best + Margin, n, n * best + Margin * n);
  }

  /** The mean is at most the best earlier accuracy, so a current accuracy
      more than 5 points above the best is always "improving". */
  lemma AboveBestImproves(current: Attempt, previous: seq<Attempt>, round: real -> real)
    requires previous != []
    requires current.accuracy > MaxAccuracy(previous) + Margin
    ensures ImprovementStatsOf(current, previous, round).trend == Improving
  {
    var best := MaxAccuracy(previous);
    var total := SumAccuracy(previous);
    var n := |previous| as real;
    var t := ImprovementStatsOf(current, previous, round).trend;
    assert TrendMatchesTotal(t, current.accuracy, total, n) by {
      TrendWithoutDivision(current, previous, round);
    }
    assert total <= n * best by {
      SumBelowMax(previous, best);
    }
    ImprovingAboveBound(t, current.accuracy, best, total, n);
  }
}
