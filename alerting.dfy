/**
 * `AlertingService.CheckAndCreateAlertAsync` (Services/AlertingService.cs): the
 * consecutive-breach rule. `AlertFor` states which alert, if any, one check
 * appends; `AlertingService.CheckAndCreateAlert` performs the check on the
 * database and is proved to append exactly that.
 */
module Alerting {
  import opened Wrappers
  import opened Text
  import opened IntText
  import opened Sequences
  import opened Models
  import opened Thresholds

  /** `Alerting:ConsecutiveBreachCount`, lower-cased, and its default. */
  const ConsecutiveCountKey: string := "alerting:consecutivebreachcount"
  const DefaultConsecutiveCount: int := 3

  /** The window size the service reads once, in its constructor: an Int32, 3 when not configured. */
  function ConsecutiveCount(config: Config): (n: int)
    requires ConfigWellFormed(config)
    ensures ConsecutiveCountKey in config.integers ==> n == config.integers[ConsecutiveCountKey]
    ensures ConsecutiveCountKey !in config.integers ==> n == DefaultConsecutiveCount
    ensures IsInt32(n)
  {
    GetInteger(config, ConsecutiveCountKey, DefaultConsecutiveCount)
  }

  /**
   * `_consecutiveCount - 1` in 32-bit arithmetic: `Int32.MinValue - 1` wraps
   * around to `Int32.MaxValue`, so that window size fetches the whole series.
   */
  function QueryLimit(n: int): (limit: int)
    ensures IsInt32(n) ==> IsInt32(limit)
  {
    if n == Int32Min then Int32Max else n - 1
  }

  /** The `Where` of the window query: same sensor, and a metric type that lower-cases to `metricType`. */
  predicate SameSeries(r: MetricReading, sensorId: string, metricType: string) {
    r.sensorId == sensorId && ToLower(r.metricType) == metricType
  }

  /** Every stored reading of one sensor and metric type. */
  function Series(stored: seq<MetricReading>, sensorId: string, metricType: string): seq<MetricReading> {
    Filter(stored, (r: MetricReading) => SameSeries(r, sensorId, metricType))
  }

  /** The query `Where(..).OrderByDescending(r => r.Timestamp).Take(limit)`. */
  function Recent(stored: seq<MetricReading>, sensorId: string, metricType: string, limit: int): seq<MetricReading> {
    Take(SortDesc(Series(stored, sensorId, metricType), ReadingTime), limit)
  }

  /** `Select(r => r.Value)`. */
  function ValuesOf(rs: seq<MetricReading>): (vs: seq<real>)
    ensures |vs| == |rs|
    ensures forall i :: 0 <= i < |rs| ==> vs[i] == rs[i].value
  {
    seq(|rs|, i requires 0 <= i < |rs| => rs[i].value)
  }

  lemma ValuesOfCons(r: MetricReading, rs: seq<MetricReading>)
    ensures ValuesOf([r] + rs) == [r.value] + ValuesOf(rs)
  {
  }

  /**
   * The `values` list: the reading's own value, then the values of the newest
   * `QueryLimit(n)` readings of its series that are in `stored` when the check runs.
   */
  function Window(stored: seq<MetricReading>, reading: MetricReading, n: int): seq<real> {
    [reading.value] + ValuesOf(Recent(stored, reading.sensorId, ToLower(reading.metricType), QueryLimit(n)))
  }

  /** `values.All(...)` with the breach test of the policy. */
  predicate AllBreach(values: seq<real>, t: Threshold) {
    forall i :: 0 <= i < |values| ==> Breaches(values[i], t)
  }

  /** `$"Consecutive {_consecutiveCount} breach"`. */
  function AlertType(n: int): string {
    "Consecutive " + IntToString(n) + " breach"
  }

  /**
   * The alert one check appends, if any, for `reading` when the readings table
   * holds `stored`, the window size is `n` and the clock reads `now`.
   */
  function AlertFor(config: Config, n: int, stored: seq<MetricReading>, reading: MetricReading, now: int): Option<Alert> {
    var metricType := ToLower(reading.metricType);
    var t := GetThresholdFor(config, metricType);
    var values := Window(stored, reading, n);
    if HasPolicy(t) && |values| >= n && AllBreach(values, t) then
      Some(Alert(reading.sensorId, metricType, AlertType(n), reading.value, t.max, now))
    else
      None
  }

  function AsSeq<T>(o: Option<T>): seq<T> {
    match o
    case Some(x) => [x]
    case None => []
  }

  /** `values.All(v => ...)`: true exactly when every value breaches `t`. */
  method EvaluateBreach(values: seq<real>, t: Threshold) returns (breach: bool)
    ensures breach <==> AllBreach(values, t)
  {
    breach := true;
    var i := 0;
    while i < |values|
      invariant 0 <= i <= |values|
      invariant breach <==> forall k :: 0 <= k < i ==> Breaches(values[k], t)
    {
      if !Breaches(values[i], t) {
        breach := false;
        return;
      }
      i := i + 1;
    }
  }

  class AlertingService {
    const db: MetricsDb
    const config: Config
    const consecutiveCount: int

    constructor (db: MetricsDb, config: Config)
      requires ConfigWellFormed(config)
      ensures this.db == db && this.config == config
      ensures consecutiveCount == ConsecutiveCount(config) && IsInt32(consecutiveCount)
    {
      this.db := db;
      this.config := config;
      consecutiveCount := ConsecutiveCount(config);
    }

    /**
     * `CheckAndCreateAlertAsync`: appends `AlertFor(...)` to the alerts table,
     * judged against the readings table as it is when the check runs, and
     * changes nothing else.
     */
    method CheckAndCreateAlert(reading: MetricReading, now: int)
      modifies db`alerts
      ensures db.alerts == old(db.alerts) + AsSeq(AlertFor(config, consecutiveCount, db.readings, reading, now))
      ensures old(db.Valid()) ==> db.Valid()
    {
      var metricType := ToLower(reading.metricType);
      var t := GetThresholdFor(config, metricType);
      if t.max.NaN? && !t.isRange {
        return;
      }
      var recent := Recent(db.readings, reading.sensorId, metricType, QueryLimit(consecutiveCount));
      var values := [reading.value] + ValuesOf(recent);
      if |values| < consecutiveCount {
        return;
      }
      var breach := EvaluateBreach(values, t);
      if breach {
        var alert := Alert(reading.sensorId, metricType, AlertType(consecutiveCount), reading.value, t.max, now);
        assert IsLower(alert.metricType) by {
          ToLowerIsLower(reading.metricType);
        }
        db.alerts := db.alerts + [alert];
      }
    }
  }

  /**
   * The window query returns `min(limit, |series|)` distinct rows of the series
   * (none for `limit <= 0`), all from `stored`, newest first, and no reading of
   * the series left out is newer than one returned.
   */
  lemma RecentIsNewest(stored: seq<MetricReading>, sensorId: string, metricType: string, limit: int)
    ensures |Recent(stored, sensorId, metricType, limit)|
      == if limit <= 0 then 0 else if limit < |Series(stored, sensorId, metricType)| then limit else |Series(stored, sensorId, metricType)|
    ensures multiset(Recent(stored, sensorId, metricType, limit)) <= multiset(Series(stored, sensorId, metricType))
    ensures forall i :: 0 <= i < |Recent(stored, sensorId, metricType, limit)| ==>
      Recent(stored, sensorId, metricType, limit)[i] in stored && SameSeries(Recent(stored, sensorId, metricType, limit)[i], sensorId, metricType)
    ensures SortedDesc(Recent(stored, sensorId, metricType, limit), ReadingTime)
    ensures forall x, j ::
      x in multiset(Series(stored, sensorId, metricType)) - multiset(Recent(stored, sensorId, metricType, limit))
      && 0 <= j < |Recent(stored, sensorId, metricType, limit)|
      ==> x.timestamp <= Recent(stored, sensorId, metricType, limit)[j].timestamp
  {
    var series := Series(stored, sensorId, metricType);
    var recent := Recent(stored, sensorId, metricType, limit);
    assert SortedDesc(recent, ReadingTime) && multiset(recent) <= multiset(series) by {
      TakeSortedIsNewest(series, ReadingTime, limit);
    }
    forall x: MetricReading, j | x in multiset(series) - multiset(recent) && 0 <= j < |recent|
      ensures x.timestamp <= recent[j].timestamp
    {
      TakeSortedIsNewest(series, ReadingTime, limit);
      assert ReadingTime(x) <= ReadingTime(recent[j]);
    }
    RecentInSeries(stored, sensorId, metricType, limit);
  }

  lemma RecentInSeries(stored: seq<MetricReading>, sensorId: string, metricType: string, limit: int)
    ensures forall i :: 0 <= i < |Recent(stored, sensorId, metricType, limit)| ==>
      Recent(stored, sensorId, metricType, limit)[i] in stored && SameSeries(Recent(stored, sensorId, metricType, limit)[i], sensorId, metricType)
  {
    var series := Series(stored, sensorId, metricType);
    var recent := Recent(stored, sensorId, metricType, limit);
    TakeSortedIsNewest(series, ReadingTime, limit);
    forall i | 0 <= i < |recent|
      ensures recent[i] in stored && SameSeries(recent[i], sensorId, metricType)
    {
      assert recent[i] in multiset(recent);
      assert recent[i] in multiset(series);
    }
  }

  /**
   * The shape of `values`: the reading's own value first, then the values of
   * the window query for the newest `QueryLimit(n)`; at most `max(n, 1)`
   * entries unless `n - 1` wraps around.
   */
  lemma WindowShape(stored: seq<MetricReading>, reading: MetricReading, n: int)
    ensures |Window(stored, reading, n)| == 1 + |Recent(stored, reading.sensorId, ToLower(reading.metricType), QueryLimit(n))|
    ensures n != Int32Min ==> |Window(stored, reading, n)| <= if n <= 1 then 1 else n
    ensures Window(stored, reading, n)[0] == reading.value
    ensures forall i :: 1 <= i < |Window(stored, reading, n)| ==>
      Window(stored, reading, n)[i] == Recent(stored, reading.sensorId, ToLower(reading.metricType), QueryLimit(n))[i - 1].value
  {
    RecentIsNewest(stored, reading.sensorId, ToLower(reading.metricType), QueryLimit(n));
  }

  /** Too short a history never raises an alert. */
  lemma ShortHistoryNoAlert(config: Config, n: int, stored: seq<MetricReading>, reading: MetricReading, now: int)
    requires |Window(stored, reading, n)| < n
    ensures AlertFor(config, n, stored, reading, now) == None
  {
  }

  /** With no policy (an upper bound of `NaN`) the check never raises an alert. */
  lemma NoPolicyNoAlert(config: Config, n: int, stored: seq<MetricReading>, reading: MetricReading, now: int)
    requires !HasPolicy(GetThresholdFor(config, ToLower(reading.metricType)))
    ensures AlertFor(config, n, stored, reading, now) == None
  {
  }

  /** Every value is strictly above `max`. */
  predicate AllAbove(values: seq<real>, max: real) {
    forall i :: 0 <= i < |values| ==> values[i] > max
  }

  /** Every value is strictly below a finite `min` or strictly above a finite `max`. */
  predicate AllOutside(values: seq<real>, min: Double, max: Double) {
    forall i :: 0 <= i < |values| ==> Outside(values[i], min, max)
  }

  /** Strictly below a finite `min` or strictly above a finite `max`. */
  predicate Outside(v: real, min: Double, max: Double) {
    (min.Finite? && v < min.value) || (max.Finite? && v > max.value)
  }

  /** Upper bound only: an alert exactly when the window is full and every value is strictly above the bound. */
  lemma UpperOnlyAlertIff(config: Config, n: int, stored: seq<MetricReading>, reading: MetricReading, now: int)
    requires var t := GetThresholdFor(config, ToLower(reading.metricType)); !t.isRange && t.max.Finite?
    ensures var t := GetThresholdFor(config, ToLower(reading.metricType));
      AlertFor(config, n, stored, reading, now).Some? <==>
        |Window(stored, reading, n)| >= n && AllAbove(Window(stored, reading, n), t.max.value)
  {
    AlertForSome(config, n, stored, reading, now);
    UpperBreachAll(Window(stored, reading, n), GetThresholdFor(config, ToLower(reading.metricType)));
  }

  lemma UpperBreachAll(values: seq<real>, t: Threshold)
    requires !t.isRange && t.max.Finite?
    ensures AllBreach(values, t) <==> AllAbove(values, t.max.value)
  {
  }

  /** Range: an alert exactly when the window is full and every value is strictly below `min` or strictly above `max`. */
  lemma RangeAlertIff(config: Config, n: int, stored: seq<MetricReading>, reading: MetricReading, now: int)
    requires GetThresholdFor(config, ToLower(reading.metricType)).isRange
    ensures var t := GetThresholdFor(config, ToLower(reading.metricType));
      AlertFor(config, n, stored, reading, now).Some? <==>
        |Window(stored, reading, n)| >= n && AllOutside(Window(stored, reading, n), t.min, t.max)
  {
    AlertForSome(config, n, stored, reading, now);
    RangeBreachAll(Window(stored, reading, n), GetThresholdFor(config, ToLower(reading.metricType)));
  }

  lemma RangeBreachAll(values: seq<real>, t: Threshold)
    requires t.isRange
    ensures AllBreach(values, t) <==> AllOutside(values, t.min, t.max)
  {
  }

  /** `AlertFor` raises an alert exactly when there is a policy, the window is full and every value breaches. */
  lemma AlertForSome(config: Config, n: int, stored: seq<MetricReading>, reading: MetricReading, now: int)
    ensures AlertFor(config, n, stored, reading, now).Some? <==>
      && HasPolicy(GetThresholdFor(config, ToLower(reading.metricType)))
      && |Window(stored, reading, n)| >= n
      && AllBreach(Window(stored, reading, n), GetThresholdFor(config, ToLower(reading.metricType)))
  {
  }

  /** A single value on the bound (or inside the range) anywhere in the window blocks the alert. */
  lemma OneSafeValueBlocksAlert(config: Config, n: int, stored: seq<MetricReading>, reading: MetricReading, now: int, k: nat)
    requires k < |Window(stored, reading, n)|
    requires !Breaches(Window(stored, reading, n)[k], GetThresholdFor(config, ToLower(reading.metricType)))
    ensures AlertFor(config, n, stored, reading, now) == None
  {
  }

  /**
   * What an alert records: the reading's sensor, its lower-cased metric type,
   * "Consecutive {n} breach", the reading's value, the upper bound (also for a
   * range) and the time of the check.
   */
  lemma AlertContents(config: Config, n: int, stored: seq<MetricReading>, reading: MetricReading, now: int)
    requires AlertFor(config, n, stored, reading, now).Some?
    ensures var a := AlertFor(config, n, stored, reading, now).value;
      && a.sensorId == reading.sensorId
      && a.metricType == ToLower(reading.metricType)
      && IsLower(a.metricType)
      && a.alertType == "Consecutive " + IntToString(n) + " breach"
      && a.value == reading.value
      && a.threshold == GetThresholdFor(config, ToLower(reading.metricType)).max
      && a.timestamp == now
  {
    ToLowerIsLower(reading.metricType);
  }

  /**
   * The check runs after the reading is saved, so the window query finds the
   * reading itself as the newest of its series: for `n >= 2` the window is its
   * value twice followed by the newest `n - 2` earlier values.
   */
  lemma NewReadingCountedTwice(stored: seq<MetricReading>, reading: MetricReading, n: int)
    requires n >= 2
    requires forall i :: 0 <= i < |stored| ==> stored[i].timestamp <= reading.timestamp
    ensures Window(stored + [reading], reading, n)
      == [reading.value, reading.value] + ValuesOf(Recent(stored, reading.sensorId, ToLower(reading.metricType), n - 2))
  {
    assert QueryLimit(n) == n - 1;
    var metricType := ToLower(reading.metricType);
    var series := Series(stored, reading.sensorId, metricType);
    RecentWithNewest(stored, reading, n - 1);
    ValuesOfCons(reading, Take(SortDesc(series, ReadingTime), n - 2));
  }

  /** Appending a reading of the series at least as new as every stored one puts it first in the window query. */
  lemma RecentWithNewest(stored: seq<MetricReading>, reading: MetricReading, limit: int)
    requires limit >= 1
    requires forall i :: 0 <= i < |stored| ==> stored[i].timestamp <= reading.timestamp
    ensures Recent(stored + [reading], reading.sensorId, ToLower(reading.metricType), limit)
      == [reading] + Recent(stored, reading.sensorId, ToLower(reading.metricType), limit - 1)
  {
    var metricType := ToLower(reading.metricType);
    var series := Series(stored, reading.sensorId, metricType);
    SeriesAppend(stored, reading);
    SeriesNotNewer(stored, reading.sensorId, metricType, reading.timestamp);
    SortDescNewest(series, reading, ReadingTime);
    TakeCons(reading, SortDesc(series, ReadingTime), limit);
  }

  lemma SeriesAppend(stored: seq<MetricReading>, reading: MetricReading)
    ensures Series(stored + [reading], reading.sensorId, ToLower(reading.metricType))
      == Series(stored, reading.sensorId, ToLower(reading.metricType)) + [reading]
  {
    FilterAppend(stored, reading, (r: MetricReading) => SameSeries(r, reading.sensorId, ToLower(reading.metricType)));
  }

  lemma SeriesNotNewer(stored: seq<MetricReading>, sensorId: string, metricType: string, time: int)
    requires forall i :: 0 <= i < |stored| ==> stored[i].timestamp <= time
    ensures forall i :: 0 <= i < |Series(stored, sensorId, metricType)| ==> ReadingTime(Series(stored, sensorId, metricType)[i]) <= time
  {
    var series := Series(stored, sensorId, metricType);
    forall i | 0 <= i < |series|
      ensures ReadingTime(series[i]) <= time
    {
      assert series[i] in multiset(series);
      assert series[i] in multiset(stored);
    }
  }

  /**
   * Consequence: with `n >= 2` an alert fires on the `(n - 1)`-th consecutive
   * breaching reading of a series, not the `n`-th: the new reading and `n - 2`
   * earlier breaching ones suffice.
   */
  lemma AlertAfterNMinusOneBreaches(config: Config, n: int, stored: seq<MetricReading>, reading: MetricReading, now: int)
    requires n >= 2
    requires forall i :: 0 <= i < |stored| ==> stored[i].timestamp <= reading.timestamp
    requires var t := GetThresholdFor(config, ToLower(reading.metricType));
      var earlier := Recent(stored, reading.sensorId, ToLower(reading.metricType), n - 2);
      && HasPolicy(t)
      && Breaches(reading.value, t)
      && |earlier| == n - 2
      && forall k :: 0 <= k < |earlier| ==> Breaches(earlier[k].value, t)
    ensures AlertFor(config, n, stored + [reading], reading, now).Some?
  {
    NewReadingCountedTwice(stored, reading, n);
    var t := GetThresholdFor(config, ToLower(reading.metricType));
    var earlier := Recent(stored, reading.sensorId, ToLower(reading.metricType), n - 2);
    DoubledWindowBreaches(reading.value, earlier, t);
  }

  lemma DoubledWindowBreaches(v: real, earlier: seq<MetricReading>, t: Threshold)
    requires Breaches(v, t)
    requires forall k :: 0 <= k < |earlier| ==> Breaches(earlier[k].value, t)
    ensures AllBreach([v, v] + ValuesOf(earlier), t)
  {
  }
}
