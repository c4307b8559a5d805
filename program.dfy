/**
 * The request handlers of Program.cs: POST /api/metrics (validate, normalise,
 * save, then run the alert check), GET /api/metrics/summary (interval parsing
 * and aggregation) and GET /api/alerts (the newest alerts).
 */
module Api {
  import opened Wrappers
  import opened Text
  import opened IntText
  import opened Sequences
  import opened Models
  import opened Thresholds
  import opened Alerting

  /** The HTTP results the handlers return. */
  datatype Response<T> = Ok(body: T) | Created(body: T) | BadRequest(message: string)

  const MissingReadingFields: string := "SensorId and MetricType are required."
  const MissingSummaryFields: string := "metricType and interval are required (e.g. 1h, 30m)."
  const BadInterval: string := "Could not parse interval. Use e.g. 1h or 30m."

  const MinutesPerHour: int := 60
  const DefaultAlertLimit: int := 100

  /**
   * POST /api/metrics. A blank sensor id or metric type is rejected and
   * nothing is stored. Otherwise exactly one reading is appended, with the
   * lower-cased metric type and the server time, and only then does the alert
   * check run, so the check sees the new reading among the stored ones.
   */
  method PostMetric(db: MetricsDb, alertService: AlertingService, dto: MetricReadingDto, now: int)
    returns (res: Response<MetricReading>)
    requires alertService.db == db
    modifies db
    ensures IsNullOrWhiteSpace(dto.sensorId) || IsNullOrWhiteSpace(dto.metricType) ==>
      && res == BadRequest(MissingReadingFields)
      && db.readings == old(db.readings)
      && db.alerts == old(db.alerts)
    ensures !IsNullOrWhiteSpace(dto.sensorId) && !IsNullOrWhiteSpace(dto.metricType) ==>
      && res.Created?
      && res.body == MetricReading(dto.sensorId.value, ToLower(dto.metricType.value), dto.value, now)
      && db.readings == old(db.readings) + [res.body]
      && db.alerts == old(db.alerts)
        + AsSeq(AlertFor(alertService.config, alertService.consecutiveCount, old(db.readings) + [res.body], res.body, now))
    ensures old(db.Valid()) ==> db.Valid()
  {
    if IsNullOrWhiteSpace(dto.sensorId) || IsNullOrWhiteSpace(dto.metricType) {
      return BadRequest(MissingReadingFields);
    }
    var reading := MetricReading(dto.sensorId.value, ToLower(dto.metricType.value), dto.value, now);
    ToLowerIsLower(dto.metricType.value);
    SaveAndCheck(db, alertService, reading, now);
    return Created(reading);
  }

  /** Saves a normalised reading, then runs the alert check on the table that now holds it. */
  method SaveAndCheck(db: MetricsDb, alertService: AlertingService, reading: MetricReading, now: int)
    requires alertService.db == db
    requires IsLower(reading.metricType)
    modifies db
    ensures db.readings == old(db.readings) + [reading]
    ensures db.alerts == old(db.alerts)
      + AsSeq(AlertFor(alertService.config, alertService.consecutiveCount, old(db.readings) + [reading], reading, now))
    ensures old(db.Valid()) ==> db.Valid()
  {
    db.readings := db.readings + [reading];
    alertService.CheckAndCreateAlert(reading, now);
  }

  /**
   * `ParseIntervalToUtcStart`: after trimming and lower-casing, "{n}h" is `n`
   * hours back, "{n}m" is `n` minutes back and a bare integer is hours back;
   * anything else, including a suffix without a number before it, is `None`.
   */
  function ParseIntervalToUtcStart(interval: string, now: int): Option<int> {
    ParseNormalizedInterval(ToLower(Trim(interval)), now)
  }

  /**
   * The number text of a trimmed, lower-cased interval, and whether it counts
   * hours: a trailing h is hours, a trailing m minutes, no suffix hours.
   */
  function SplitUnit(s: string): (string, bool) {
    if EndsWithChar(s, 'h') then (s[..|s| - 1], true)
    else if EndsWithChar(s, 'm') then (s[..|s| - 1], false)
    else (s, true)
  }

  /** The `try` block of `ParseIntervalToUtcStart`, on the trimmed, lower-cased text. */
  function ParseNormalizedInterval(s: string, now: int): Option<int> {
    var (text, hours) := SplitUnit(s);
    match ParseInt(text)
    case Some(n) => Some(if hours then now - n * MinutesPerHour else now - n)
    case None => None
  }

  /** Surrounding white space and letter case never change the parsed start. */
  lemma ParseIntervalNormalizes(interval: string, now: int)
    ensures ParseIntervalToUtcStart(interval, now) == ParseIntervalToUtcStart(ToLower(Trim(interval)), now)
  {
    NormalizeIdempotent(interval);
  }

  /** Text with no white space at its ends and no capital letters is parsed as it is. */
  lemma ParseNormalized(s: string, now: int)
    requires s == [] || (!IsWhiteSpace(s[0]) && !IsWhiteSpace(s[|s| - 1]))
    requires IsLower(s)
    ensures ParseIntervalToUtcStart(s, now) == ParseNormalizedInterval(s, now)
  {
    TrimOfTrimmed(s);
    ToLowerIsLower(s);
  }

  /** Text that starts with no white space, ends in a digit and has no capital letters. */
  predicate DecimalText(d: string) {
    d != [] && !IsWhiteSpace(d[0]) && IsDigit(d[|d| - 1]) && IsLower(d)
  }

  /** The decimal text of an integer is such a text. */
  lemma IntTextIsDecimal(n: int)
    ensures DecimalText(IntToString(n))
  {
    var d := IntToString(n);
    assert IsLower(d);
  }

  lemma ParseSuffixedText(d: string, unit: char, n: int, now: int)
    requires DecimalText(d) && ParseInt(d) == Some(n)
    requires unit == 'h' || unit == 'm'
    ensures unit == 'h' ==> ParseIntervalToUtcStart(d + [unit], now) == Some(now - n * MinutesPerHour)
    ensures unit == 'm' ==> ParseIntervalToUtcStart(d + [unit], now) == Some(now - n)
  {
    SuffixedIsNormalized(d, unit);
    ParseNormalized(d + [unit], now);
    ParseSuffixed(d, unit, n, now);
  }

  lemma SuffixedIsNormalized(d: string, unit: char)
    requires DecimalText(d)
    requires unit == 'h' || unit == 'm'
    ensures !IsWhiteSpace((d + [unit])[0]) && !IsWhiteSpace((d + [unit])[|d + [unit]| - 1])
    ensures IsLower(d + [unit])
  {
    var s := d + [unit];
    assert forall i :: 0 <= i < |d| ==> s[i] == d[i];
  }

  lemma ParseUnsuffixedText(d: string, n: int, now: int)
    requires DecimalText(d) && ParseInt(d) == Some(n)
    ensures ParseIntervalToUtcStart(d, now) == Some(now - n * MinutesPerHour)
  {
    DecimalIsNormalized(d);
    ParseNormalized(d, now);
    ParseUnsuffixed(d, n, now);
  }

  lemma DecimalIsNormalized(d: string)
    requires DecimalText(d)
    ensures d == [] || (!IsWhiteSpace(d[0]) && !IsWhiteSpace(d[|d| - 1]))
    ensures IsLower(d)
    ensures !EndsWithChar(d, 'h') && !EndsWithChar(d, 'm')
  {
  }

  /** "{n}h" is `n` hours before `now`, for every Int32 `n`, negative ones included. */
  lemma ParseHours(n: int, now: int)
    requires IsInt32(n)
    ensures ParseIntervalToUtcStart(IntToString(n) + "h", now) == Some(now - n * MinutesPerHour)
  {
    ParseIntToString(n);
    IntTextIsDecimal(n);
    ParseSuffixedText(IntToString(n), 'h', n, now);
  }

  /** "{n}m" is `n` minutes before `now`. */
  lemma ParseMinutes(n: int, now: int)
    requires IsInt32(n)
    ensures ParseIntervalToUtcStart(IntToString(n) + "m", now) == Some(now - n)
  {
    ParseIntToString(n);
    IntTextIsDecimal(n);
    ParseSuffixedText(IntToString(n), 'm', n, now);
  }

  /** A bare integer is a number of hours. */
  lemma ParseBareHours(n: int, now: int)
    requires IsInt32(n)
    ensures ParseIntervalToUtcStart(IntToString(n), now) == Some(now - n * MinutesPerHour)
  {
    ParseIntToString(n);
    IntTextIsDecimal(n);
    ParseUnsuffixedText(IntToString(n), n, now);
  }

  lemma ParseUnsuffixed(digits: string, n: int, now: int)
    requires !EndsWithChar(digits, 'h') && !EndsWithChar(digits, 'm')
    requires ParseInt(digits) == Some(n)
    ensures ParseNormalizedInterval(digits, now) == Some(now - n * MinutesPerHour)
  {
  }

  lemma ParseSuffixed(digits: string, unit: char, n: int, now: int)
    requires unit == 'h' || unit == 'm'
    requires ParseInt(digits) == Some(n)
    ensures unit == 'h' ==> ParseNormalizedInterval(digits + [unit], now) == Some(now - n * MinutesPerHour)
    ensures unit == 'm' ==> ParseNormalizedInterval(digits + [unit], now) == Some(now - n)
  {
    var s := digits + [unit];
    assert SplitUnit(s) == (digits, unit == 'h');
  }

  /** A trailing h or m whose prefix is not an integer fails outright; the bare-integer rule is not tried. */
  lemma ParseSuffixWithoutNumber(interval: string, now: int)
    requires var s := ToLower(Trim(interval));
      (EndsWithChar(s, 'h') || EndsWithChar(s, 'm')) && ParseInt(s[..|s| - 1]).None?
    ensures ParseIntervalToUtcStart(interval, now) == None
  {
  }

  /** Text that is neither suffixed nor an integer fails too. */
  lemma ParseNonIntegerFails(interval: string, now: int)
    requires var s := ToLower(Trim(interval));
      !EndsWithChar(s, 'h') && !EndsWithChar(s, 'm') && ParseInt(s).None?
    ensures ParseIntervalToUtcStart(interval, now) == None
  {
  }

  /** The readings the summary aggregates: metric type equal ignoring case, and not before `start`. */
  function InWindow(readings: seq<MetricReading>, metricType: string, start: int): (r: seq<MetricReading>)
    ensures forall x ::
      multiset(r)[x] == if EqualsIgnoreCase(x.metricType, metricType) && x.timestamp >= start then multiset(readings)[x] else 0
  {
    EqualsIgnoreCaseIffLowerAll(metricType);
    Filter(readings, (x: MetricReading) => ToLower(x.metricType) == ToLower(metricType) && x.timestamp >= start)
  }

  /** The alerts `alertsTriggered` counts: metric type equal to the lower-cased query, and not before `start`. */
  function AlertsInWindow(alerts: seq<Alert>, metricType: string, start: int): seq<Alert> {
    Filter(alerts, (a: Alert) => a.metricType == ToLower(metricType) && a.timestamp >= start)
  }

  /** The body of a successful summary response. */
  datatype Summary = Summary(
    metric: string,
    startUtc: int,
    lastIntervalCount: nat,
    average: Option<real>,
    min: Option<real>,
    max: Option<real>,
    alertsTriggered: nat)

  /** `Average()`, `Min()` and `Max()` of the matched values, all three null when there are none. */
  datatype Aggregates = Aggregates(average: Option<real>, min: Option<real>, max: Option<real>)

  function Aggregate(values: seq<real>): (a: Aggregates)
    ensures values == [] <==> a.average.None?
    ensures a.average.None? <==> a.min.None?
    ensures a.average.None? <==> a.max.None?
    ensures a.average.Some? ==> a.average.value == Sum(values) / |values| as real
    ensures a.min.Some? ==> a.min.value in values && forall i :: 0 <= i < |values| ==> a.min.value <= values[i]
    ensures a.max.Some? ==> a.max.value in values && forall i :: 0 <= i < |values| ==> values[i] <= a.max.value
    ensures a.average.Some? ==> a.min.value <= a.average.value <= a.max.value
  {
    if values == [] then Aggregates(None, None, None)
    else
      AverageWithinRange(values);
      Aggregates(Some(Sum(values) / |values| as real), Some(Min(values)), Some(Max(values)))
  }

  /**
   * The aggregation of GET /api/metrics/summary once `start` is known: the
   * number of matching readings, and when there are any their average, minimum
   * and maximum value (all three null when there are none), with the count of
   * alerts in the window.
   */
  function Summarize(readings: seq<MetricReading>, alerts: seq<Alert>, metricType: string, start: int): (s: Summary)
    ensures s.metric == metricType && s.startUtc == start
    ensures s.lastIntervalCount == |InWindow(readings, metricType, start)|
    ensures s.alertsTriggered == |AlertsInWindow(alerts, metricType, start)|
    ensures s.lastIntervalCount == 0 <==> s.average.None?
    ensures s.average.None? <==> s.min.None?
    ensures s.average.None? <==> s.max.None?
    ensures s.average.Some? ==>
      s.average.value == Sum(ValuesOf(InWindow(readings, metricType, start))) / s.lastIntervalCount as real
    ensures s.min.Some? ==>
      && s.min.value in ValuesOf(InWindow(readings, metricType, start))
      && forall r :: r in InWindow(readings, metricType, start) ==> s.min.value <= r.value
    ensures s.max.Some? ==>
      && s.max.value in ValuesOf(InWindow(readings, metricType, start))
      && forall r :: r in InWindow(readings, metricType, start) ==> r.value <= s.max.value
    ensures s.average.Some? ==> s.min.value <= s.average.value <= s.max.value
  {
    var list := InWindow(readings, metricType, start);
    var values := ValuesOf(list);
    var a := Aggregate(values);
    assert forall r :: r in list ==> r.value in values;
    Summary(metricType, start, |list|, a.average, a.min, a.max, |AlertsInWindow(alerts, metricType, start)|)
  }

  /**
   * GET /api/metrics/summary: a blank metric type or interval, or an interval
   * that does not parse, is a bad request; otherwise the summary from the
   * parsed start.
   */
  function GetSummary(readings: seq<MetricReading>, alerts: seq<Alert>, metricType: string, interval: string, now: int)
    : (r: Response<Summary>)
    ensures r == BadRequest(MissingSummaryFields) <==>
      IsNullOrWhiteSpace(Some(metricType)) || IsNullOrWhiteSpace(Some(interval))
    ensures r == BadRequest(BadInterval) <==>
      && !IsNullOrWhiteSpace(Some(metricType)) && !IsNullOrWhiteSpace(Some(interval))
      && ParseIntervalToUtcStart(interval, now).None?
    ensures r.Ok? <==>
      && !IsNullOrWhiteSpace(Some(metricType)) && !IsNullOrWhiteSpace(Some(interval))
      && ParseIntervalToUtcStart(interval, now).Some?
    ensures r.Ok? ==>
      && r.body.metric == metricType
      && r.body.startUtc == ParseIntervalToUtcStart(interval, now).value
      && r.body == Summarize(readings, alerts, metricType, r.body.startUtc)
  {
    if IsNullOrWhiteSpace(Some(metricType)) || IsNullOrWhiteSpace(Some(interval)) then
      BadRequest(MissingSummaryFields)
    else
      match ParseIntervalToUtcStart(interval, now)
      case None => BadRequest(BadInterval)
      case Some(start) => Ok(Summarize(readings, alerts, metricType, start))
  }

  /**
   * Alerts store lower-cased metric types (`MetricsDb.Valid`), so
   * `alertsTriggered` counts exactly the alerts whose metric type equals the
   * query ignoring case.
   */
  lemma AlertsInWindowIgnoresCase(alerts: seq<Alert>, metricType: string, start: int)
    requires AlertTypesLower(alerts)
    ensures forall a ::
      multiset(AlertsInWindow(alerts, metricType, start))[a]
      == if EqualsIgnoreCase(a.metricType, metricType) && a.timestamp >= start then multiset(alerts)[a] else 0
  {
    forall a
      ensures multiset(AlertsInWindow(alerts, metricType, start))[a] ==
        if EqualsIgnoreCase(a.metricType, metricType) && a.timestamp >= start then multiset(alerts)[a] else 0
    {
      if a in alerts {
        ToLowerIsLower(a.metricType);
        EqualsIgnoreCaseIffLower(a.metricType, metricType);
      }
    }
  }

  /** Metric types that differ only in letter case are summarised together. */
  lemma SummaryIgnoresCase(readings: seq<MetricReading>, alerts: seq<Alert>, a: string, b: string, start: int)
    requires EqualsIgnoreCase(a, b)
    ensures Summarize(readings, alerts, a, start) == Summarize(readings, alerts, b, start).(metric := a)
  {
    EqualsIgnoreCaseIffLower(a, b);
    var p := (x: MetricReading) => ToLower(x.metricType) == ToLower(a) && x.timestamp >= start;
    var q := (x: MetricReading) => ToLower(x.metricType) == ToLower(b) && x.timestamp >= start;
    assert p == q;
    var pa := (x: Alert) => x.metricType == ToLower(a) && x.timestamp >= start;
    var pb := (x: Alert) => x.metricType == ToLower(b) && x.timestamp >= start;
    assert pa == pb;
  }

  /**
   * GET /api/alerts: the newest `limit` alerts, newest first (100 when no
   * limit is given). No alert left out is newer than one listed.
   */
  function ListAlerts(alerts: seq<Alert>, limit: Option<int>): (r: seq<Alert>)
    ensures var k := limit.GetOr(DefaultAlertLimit);
      |r| == if k <= 0 then 0 else if k < |alerts| then k else |alerts|
    ensures SortedDesc(r, AlertTime)
    ensures multiset(r) <= multiset(alerts)
    ensures forall x, j :: x in multiset(alerts) - multiset(r) && 0 <= j < |r| ==> x.timestamp <= r[j].timestamp
  {
    TakeSortedIsNewest(alerts, AlertTime, limit.GetOr(DefaultAlertLimit));
    Take(SortDesc(alerts, AlertTime), limit.GetOr(DefaultAlertLimit))
  }
}
