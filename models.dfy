/**
 * The records of the metrics service (Models/MetricReading.cs, Models/Alert.cs,
 * DTOs/MetricReadingDto.cs), its configuration, and the database context
 * (Data/MetricsDbContext.cs) reduced to the two tables it holds.
 *
 * Time is a whole number of minutes since an arbitrary epoch.
 */
module Models {
  import opened Wrappers
  import opened Text
  import opened IntText

  /** A configured `double`: `NaN` or a finite number. Comparisons with `NaN` are false. */
  datatype Double = NaN | Finite(value: real)

  /** A row of `metric_readings`; `Id` is not modelled. */
  datatype MetricReading = MetricReading(sensorId: string, metricType: string, value: real, timestamp: int)

  /** A row of `alerts`; `Id` is not modelled. */
  datatype Alert = Alert(
    sensorId: string,
    metricType: string,
    alertType: string,
    value: real,
    threshold: Double,
    timestamp: int)

  /** The body of a POST to `/api/metrics`; JSON may leave either string null. */
  datatype MetricReadingDto = MetricReadingDto(sensorId: Option<string>, metricType: Option<string>, value: real)

  function ReadingTime(r: MetricReading): int { r.timestamp }

  function AlertTime(a: Alert): int { a.timestamp }

  /**
   * The configuration as the service reads it. Keys of `IConfiguration` are
   * compared without regard to case, so both maps are keyed by the lower-cased
   * key; a key that is not there takes the default the caller gives.
   */
  datatype Config = Config(numbers: map<string, Double>, integers: map<string, int>)

  /**
   * A configuration as the lookups expect it: every key lower-cased, and every
   * integer one that `GetValue<int>` can return.
   */
  predicate ConfigWellFormed(config: Config) {
    && (forall k :: k in config.numbers ==> IsLower(k))
    && (forall k :: k in config.integers ==> IsLower(k) && IsInt32(config.integers[k]))
  }

  /** `GetValue<double>(key, default)` for a lower-cased `key`. */
  function GetNumber(config: Config, key: string, default: Double): Double {
    if key in config.numbers then config.numbers[key] else default
  }

  /** `GetValue<int>(key, default)` for a lower-cased `key`. */
  function GetInteger(config: Config, key: string, default: int): int {
    if key in config.integers then config.integers[key] else default
  }

  /** Every reading's metric type has no capitals. */
  predicate ReadingTypesLower(readings: seq<MetricReading>) {
    forall i :: 0 <= i < |readings| ==> IsLower(readings[i].metricType)
  }

  /** Every alert's metric type has no capitals. */
  predicate AlertTypesLower(alerts: seq<Alert>) {
    forall i :: 0 <= i < |alerts| ==> IsLower(alerts[i].metricType)
  }

  /** The two tables of `MetricsDbContext`, oldest row first. */
  class MetricsDb {
    var readings: seq<MetricReading>
    var alerts: seq<Alert>

    constructor ()
      ensures readings == [] && alerts == []
      ensures Valid()
    {
      readings := [];
      alerts := [];
    }

    /** Every stored metric type went through `ToLowerInvariant` before it was saved. */
    predicate Valid()
      reads this
    {
      ReadingTypesLower(readings) && AlertTypesLower(alerts)
    }
  }
}
