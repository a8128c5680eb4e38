/**
 * The statistics facade of data.py: a module-level reference to the running
 * monitor, fixed fallbacks while none is set, and the detailed statistics
 * computed from the monitor's person-count history.
 *
 * The monitor is seen here as a snapshot of the values data.py reads from it;
 * its `get_realtime_stats()` and `get_history_stats()` results are part of
 * that snapshot.
 */
module Statistics {
  import opened Optional

  /** The real-time summary: pickup time, crowd level and crowd range. */
  datatype RealtimeStats = RealtimeStats(pickupTime: string, crowdLevel: string, crowdRange: string)

  /** The historical summary: flow per weekday, peak values per period, and a heatmap. */
  datatype HistoryStats = HistoryStats(weeklyFlow: seq<int>, peakTimes: seq<(string, int)>, heatmap: seq<seq<int>>)

  /** What data.py reads from the monitor object. */
  datatype Monitor = Monitor(
    personCount: int,
    personCountHistory: seq<int>,
    inferenceTime: real,
    frameCount: int,
    realtimeStats: RealtimeStats,
    historyStats: HistoryStats)

  /**
   * The detailed statistics. The offline record has no `max_people`,
   * `inference_time_ms` or `frame_count` key; those are `None` here.
   */
  datatype DetailedStats = DetailedStats(
    status: string,
    currentPeople: int,
    averagePeople: int,
    maxPeople: Option<int>,
    totalDetections: nat,
    inferenceTimeMs: Option<real>,
    frameCount: Option<int>)

  const OfflineStatus: string := "离线"
  const OnlineStatus: string := "在线"

  const DefaultRealtime: RealtimeStats := RealtimeStats("8-12 minutes", "Medium", "~35-50 people")

  const DefaultHistory: HistoryStats := HistoryStats(
    [30, 45, 60, 50, 70, 80, 65],
    [("Morning", 20), ("Lunch", 60), ("Evening", 40)],
    [[10, 20, 30, 40], [15, 25, 35, 45], [20, 30, 40, 50]])

  const OfflineStats: DetailedStats := DetailedStats(OfflineStatus, 0, 0, None, 0, None, None)

  // ---------------------------------------------------------------------------
  // Aggregates over the person-count history
  // ---------------------------------------------------------------------------

  function Sum(h: seq<int>): int
    decreases |h|
  {
    if h == [] then 0 else h[0] + Sum(h[1..])
  }

  /** `max(h)` of a non-empty list. */
  function Max(h: seq<int>): (m: int)
    requires h != []
    ensures m in h
    ensures forall i :: 0 <= i < |h| ==> h[i] <= m
    decreases |h|
  {
    if |h| == 1 then h[0]
    else
      var rest := Max(h[1..]);
      assert forall i :: 1 <= i < |h| ==> h[i] == h[1..][i - 1];
      if h[0] >= rest then h[0] else rest
  }

  /** `int(x)` of the exact quotient `a / n`: rounds toward zero. */
  function TruncDiv(a: int, n: int): (q: int)
    requires n > 0
    ensures a >= 0 ==> 0 <= q * n <= a < (q + 1) * n
    ensures a < 0 ==> (q - 1) * n < a <= q * n <= 0
  {
    if a >= 0 then
      DivBounds(a, n);
      a / n
    else
      DivBounds(-a, n);
      NegatedProducts((-a) / n, n);
      -((-a) / n)
  }

  /** Euclidean division of a non-negative number brackets it between consecutive multiples. */
  lemma DivBounds(a: int, n: int)
    requires a >= 0 && n > 0
    ensures 0 <= (a / n) * n <= a < (a / n + 1) * n
  {
    assert a == (a / n) * n + a % n;
    MulSucc(n, a / n);
  }

  lemma NegatedProducts(x: int, n: int)
    ensures (-x) * n == -(x * n)
    ensures (-x - 1) * n == -(x * n) - n
  {
  }

  lemma MulSucc(m: int, k: int)
    ensures m * (k + 1) == m + m * k
    ensures (k + 1) * m == m + k * m
  {
  }

  /**
   * `int(np.mean(h))` of a non-empty history: the exact mean `Sum(h) / |h|`
   * with its fraction dropped, so rounded down for a non-negative sum and up
   * for a negative one.
   */
  function Mean(h: seq<int>): (q: int)
    requires h != []
    ensures Sum(h) >= 0 ==> 0 <= q * |h| <= Sum(h) < (q + 1) * |h|
    ensures Sum(h) < 0 ==> (q - 1) * |h| < Sum(h) <= q * |h| <= 0
  {
    TruncDiv(Sum(h), |h|)
  }

  /** The sum is at most the maximum times the length. */
  lemma {:induction false} SumAtMostMaxTimesLength(h: seq<int>)
    requires h != []
    ensures Sum(h) <= Max(h) * |h|
    decreases |h|
  {
    if |h| > 1 {
      var rest := h[1..];
      SumAtMostMaxTimesLength(rest);
      var m := Max(h);
      assert Max(rest) <= m by {
        assert Max(rest) in rest;
      }
      assert Max(rest) * |rest| <= m * |rest| by {
        MulMonotone(Max(rest), m, |rest|);
      }
      var k := |rest|;
      assert |h| == k + 1;
      MulSucc(m, k);
      assert Sum(h) == h[0] + Sum(rest);
    }
  }

  lemma MulMonotone(a: int, b: int, n: nat)
    requires a <= b
    ensures a * n <= b * n
  {
    assert b * n - a * n == (b - a) * n;
  }

  /** If `a * n < b * n` for a positive `n`, then `a < b`. */
  lemma MulCancelLess(a: int, b: int, n: int)
    requires n > 0 && a * n < b * n
    ensures a < b
  {
    if a >= b {
      MulMonotone(b, a, n);
    }
  }

  /** The truncated mean never exceeds the maximum, whatever the signs of the counts. */
  lemma AverageAtMostMax(h: seq<int>)
    ensures h != [] ==> Mean(h) <= Max(h)
  {
    if h != [] {
      var s, n, m, q := Sum(h), |h|, Max(h), Mean(h);
      SumAtMostMaxTimesLength(h);
      if s >= 0 {
        assert q * n <= m * n;
        MulSucc(n, m);
        MulCancelLess(q, m + 1, n);
      } else {
        assert (q - 1) * n < m * n;
        MulCancelLess(q - 1, m, n);
      }
    }
  }

  /** For non-negative counts the truncated mean is integer division of the sum and is itself non-negative. */
  lemma {:induction false} MeanOfNonNegative(h: seq<int>)
    requires h != []
    requires forall i :: 0 <= i < |h| ==> h[i] >= 0
    ensures Sum(h) >= 0
    ensures Mean(h) == Sum(h) / |h| && Mean(h) >= 0
  {
    SumNonNegative(h);
  }

  lemma {:induction false} SumNonNegative(h: seq<int>)
    requires forall i :: 0 <= i < |h| ==> h[i] >= 0
    ensures Sum(h) >= 0
    decreases |h|
  {
    if h != [] {
      assert forall i :: 0 <= i < |h[1..]| ==> h[1..][i] == h[i + 1];
      SumNonNegative(h[1..]);
    }
  }

  /** The detailed statistics the monitor snapshot `m` yields. */
  function DetailedStatsOf(m: Monitor): (r: DetailedStats)
    ensures r.status == OnlineStatus && r.currentPeople == m.personCount && r.frameCount == Some(m.frameCount)
    ensures r.totalDetections == |m.personCountHistory|
    ensures r.inferenceTimeMs == Some(m.inferenceTime * 1000.0)
    ensures m.personCountHistory == [] ==> r.averagePeople == 0 && r.maxPeople == Some(0)
    ensures m.personCountHistory != [] ==>
      && r.averagePeople == Mean(m.personCountHistory)
      && r.maxPeople.Some? && r.maxPeople.value in m.personCountHistory
      && (forall c :: c in m.personCountHistory ==> c <= r.maxPeople.value)
    ensures r.maxPeople.Some? && r.averagePeople <= r.maxPeople.value
  {
    var h := m.personCountHistory;
    var avg := if |h| > 0 then Mean(h) else 0;
    var top := if h != [] then Max(h) else 0;
    AverageAtMostMax(h);
    DetailedStats(OnlineStatus, m.personCount, avg, Some(top), |h|, Some(m.inferenceTime * 1000.0), Some(m.frameCount))
  }

  /** The module-level state of data.py: the monitor reference, unset at import. */
  class DataModule {
    var monitor: Option<Monitor>

    constructor()
      ensures monitor == None
    {
      monitor := None;
    }

    /** `set_monitor(m)`: later queries answer from `m`, or from the fallbacks when `m` is `None`. */
    method SetMonitor(m: Option<Monitor>)
      modifies this
      ensures monitor == m
      ensures m.Some? ==> GetRealtimeData() == m.value.realtimeStats && GetHistoryData() == m.value.historyStats
      ensures m.Some? ==> GetDetailedStats() == DetailedStatsOf(m.value)
      ensures m.None? ==> GetDetailedStats() == OfflineStats
    {
      monitor := m;
    }

    /** `get_realtime_data()`. */
    function GetRealtimeData(): (r: RealtimeStats)
      reads this
      ensures monitor.None? ==> r == DefaultRealtime
      ensures monitor.Some? ==> r == monitor.value.realtimeStats
    {
      if monitor.None? then DefaultRealtime else monitor.value.realtimeStats
    }

    /** `get_history_data()`: the fallback has one flow value per weekday and a 3 by 4 heatmap. */
    function GetHistoryData(): (r: HistoryStats)
      reads this
      ensures monitor.None? ==> r == DefaultHistory
      ensures monitor.None? ==> |r.weeklyFlow| == 7 && |r.heatmap| == 3 && forall row :: row in r.heatmap ==> |row| == 4
      ensures monitor.Some? ==> r == monitor.value.historyStats
    {
      if monitor.None? then DefaultHistory else monitor.value.historyStats
    }

    /** `get_detailed_stats()`: offline with zero counts, or the monitor's figures. */
    function GetDetailedStats(): (r: DetailedStats)
      reads this
      ensures monitor.None? ==> r.status == OfflineStatus && r.currentPeople == 0 && r.averagePeople == 0 && r.totalDetections == 0
      ensures monitor.None? ==> r.maxPeople.None? && r.inferenceTimeMs.None? && r.frameCount.None?
      ensures monitor.Some? ==> r.status == OnlineStatus && r == DetailedStatsOf(monitor.value)
    {
      if monitor.None? then OfflineStats else DetailedStatsOf(monitor.value)
    }
  }
}
