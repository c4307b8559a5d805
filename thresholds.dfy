/**
 * Threshold policy resolution: `AlertingService.GetThresholdFor` and the
 * per-value breach rule of `CheckAndCreateAlertAsync`.
 */
module Thresholds {
  import opened Text
  import opened Models

  /** The three out-parameters of `GetThresholdFor`; its return value is `max` again. */
  datatype Threshold = Threshold(isRange: bool, min: Double, max: Double)

  /** Configuration keys, lower-cased (see `Models.Config`). */
  const TemperatureKey: string := "thresholds:temperature"
  const HumidityMinKey: string := "thresholds:humidity_min"
  const HumidityMaxKey: string := "thresholds:humidity_max"

  const DefaultTemperatureMax: real := 30.0
  const DefaultHumidityMin: real := 20.0
  const DefaultHumidityMax: real := 70.0

  /** `$"Thresholds:{metricType}"`, lower-cased. */
  function MetricKey(metricType: string): string {
    "thresholds:" + ToLower(metricType)
  }

  /**
   * `GetThresholdFor`: temperature has an upper bound only, humidity a range,
   * any other metric type an upper bound taken from its own key or `NaN`.
   */
  function GetThresholdFor(config: Config, metricType: string): (t: Threshold)
    ensures EqualsIgnoreCase(metricType, "temperature") ==>
      && !t.isRange && t.min == NaN
      && (TemperatureKey in config.numbers ==> t.max == config.numbers[TemperatureKey])
      && (TemperatureKey !in config.numbers ==> t.max == Finite(DefaultTemperatureMax))
    ensures EqualsIgnoreCase(metricType, "humidity") ==>
      && t.isRange
      && (HumidityMinKey in config.numbers ==> t.min == config.numbers[HumidityMinKey])
      && (HumidityMinKey !in config.numbers ==> t.min == Finite(DefaultHumidityMin))
      && (HumidityMaxKey in config.numbers ==> t.max == config.numbers[HumidityMaxKey])
      && (HumidityMaxKey !in config.numbers ==> t.max == Finite(DefaultHumidityMax))
    ensures !EqualsIgnoreCase(metricType, "temperature") && !EqualsIgnoreCase(metricType, "humidity") ==>
      && !t.isRange && t.min == NaN
      && (MetricKey(metricType) in config.numbers ==> t.max == config.numbers[MetricKey(metricType)])
      && (MetricKey(metricType) !in config.numbers ==> t.max == NaN)
  {
    if EqualsIgnoreCase(metricType, "temperature") then
      Threshold(false, NaN, GetNumber(config, TemperatureKey, Finite(DefaultTemperatureMax)))
    else if EqualsIgnoreCase(metricType, "humidity") then
      Threshold(true,
        GetNumber(config, HumidityMinKey, Finite(DefaultHumidityMin)),
        GetNumber(config, HumidityMaxKey, Finite(DefaultHumidityMax)))
    else
      Threshold(false, NaN, GetNumber(config, MetricKey(metricType), NaN))
  }

  /** The negation of the skip test `double.IsNaN(max) && !isRange`. */
  predicate HasPolicy(t: Threshold) {
    t.isRange || t.max.Finite?
  }

  /** `v > bound`, false when the bound is `NaN`. */
  predicate Above(v: real, bound: Double) { bound.Finite? && v > bound.value }

  /** `v < bound`, false when the bound is `NaN`. */
  predicate Below(v: real, bound: Double) { bound.Finite? && v < bound.value }

  /** The per-value test of the `All` predicate: outside the range, or above the upper bound. */
  predicate Breaches(v: real, t: Threshold) {
    if t.isRange then Below(v, t.min) || Above(v, t.max) else Above(v, t.max)
  }

  lemma EqualsIgnoreCaseSymmetric(a: string, b: string)
    requires EqualsIgnoreCase(a, b)
    ensures EqualsIgnoreCase(b, a)
  {
  }

  lemma EqualsIgnoreCaseTransitive(a: string, b: string, c: string)
    requires EqualsIgnoreCase(a, b) && EqualsIgnoreCase(b, c)
    ensures EqualsIgnoreCase(a, c)
  {
  }

  /** Metric types that differ only in letter case resolve to the same policy. */
  lemma ThresholdIgnoresCase(config: Config, a: string, b: string)
    requires EqualsIgnoreCase(a, b)
    ensures GetThresholdFor(config, a) == GetThresholdFor(config, b)
  {
    EqualsIgnoreCaseSymmetric(a, b);
    if EqualsIgnoreCase(a, "temperature") {
      EqualsIgnoreCaseTransitive(b, a, "temperature");
    } else if EqualsIgnoreCase(b, "temperature") {
      EqualsIgnoreCaseTransitive(a, b, "temperature");
    } else if EqualsIgnoreCase(a, "humidity") {
      EqualsIgnoreCaseTransitive(b, a, "humidity");
    } else if EqualsIgnoreCase(b, "humidity") {
      EqualsIgnoreCaseTransitive(a, b, "humidity");
    } else {
      EqualsIgnoreCaseIffLower(a, b);
    }
  }

  /**
   * Only an upper-bound-only policy whose bound is `NaN` is skipped: humidity
   * always has a policy, and temperature or another metric type has none
   * exactly when its key holds `NaN` (or, for another type, is missing).
   */
  lemma NoPolicyIff(config: Config, metricType: string)
    ensures var t := GetThresholdFor(config, metricType);
      !HasPolicy(t) <==>
        if EqualsIgnoreCase(metricType, "temperature") then
          TemperatureKey in config.numbers && config.numbers[TemperatureKey] == NaN
        else if EqualsIgnoreCase(metricType, "humidity") then
          false
        else
          MetricKey(metricType) !in config.numbers || config.numbers[MetricKey(metricType)] == NaN
  {
  }

  /** An upper bound is breached only strictly: a value equal to the bound does not breach. */
  lemma BoundaryDoesNotBreach(v: real, t: Threshold)
    requires (t.max.Finite? && v == t.max.value) || (t.isRange && t.min.Finite? && v == t.min.value)
    requires t.isRange ==> t.min.Finite? && t.max.Finite? && t.min.value <= t.max.value
    ensures !Breaches(v, t)
  {
  }
}
