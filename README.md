# MetricsApi: ingestion, consecutive-breach alerting and summaries, in Dafny

MetricsApi is a small ASP.NET service. Sensors POST readings of the form
(sensor id, metric type, value). Every accepted reading is stored and then
checked against a threshold policy. An alert is stored when the `N` values
of the window (the new value, then the newest `N - 1` stored values of that
sensor and metric) all breach the policy. Two GET endpoints
return a summary of recent readings for one metric type and the newest
alerts.

This project models that decision logic:

- `Thresholds` (thresholds.dfy): `GetThresholdFor`, which resolves the policy for a metric type:
  - temperature has an upper bound, 30.0 by default;
  - humidity has a range, 20.0 to 70.0 by default;
  - any other type has an upper bound from its own configuration key, or none.

  The module also holds the strict breach test.
- `Alerting` (alerting.dfy): `CheckAndCreateAlertAsync`.
  - `AlertingService` is a class; `CheckAndCreateAlert` works on a `MetricsDb` object that holds the two tables as sequences.
  - The method builds the window of values, tests every value with a loop (`EvaluateBreach`) and appends at most one alert.
  - It is proved to append exactly `AlertFor(...)`, a specification function.
  - Lemmas about `AlertFor` state each rule of the check.
- `Api` (program.dfy): the handlers of Program.cs.
  - The POST handler is a method: it validates, lower-cases, appends the reading, then runs the alert check.
  - `ParseIntervalToUtcStart` is a function.
  - The summary filter and aggregation are a function.
  - The alerts listing is a function.
- `Models`, `Text`, `IntText`, `Sequences`, `Wrappers` hold what the rest builds on:
  - the records and the configuration;
  - the .NET string operations and `int.Parse`;
  - the LINQ operators.

Time is a whole number of minutes, and the clock is a parameter `now`. A configured
`double` is `Double = NaN | Finite(real)`, and every comparison with `NaN`
is false, as in C#.

**The new reading is counted twice.** The POST handler saves the reading
before it calls the alert check. So the check's query for the newest `N - 1`
readings of the series already finds the new reading, and finds it first,
because it is the newest. The window is then `[v, v, previous...]`.
`Alerting.NewReadingCountedTwice` proves this shape, and
`Alerting.AlertAfterNMinusOneBreaches` proves the consequence: with `N >= 2`,
`N - 1` breaching readings in a row raise an alert. The comment above the
query (Services/AlertingService.cs:59) speaks of the "previous" readings, but
the query runs after the save, and the model follows what the code does.

## Model

| member | source | states |
|---|---|---|
| Thresholds.GetThresholdFor | Services/AlertingService.cs:25-45 | "temperature" in any case: upper bound only, min NaN, max from `Thresholds:temperature` or 30.0. "humidity" in any case: a range with min from `humidity_min` (20.0) and max from `humidity_max` (70.0). Any other type: upper bound only, max from `Thresholds:{type}` or NaN |
| Thresholds.MetricKey | Services/AlertingService.cs:42 | the key `Thresholds:{metricType}`, lower-cased as the case-insensitive configuration compares it |
| Thresholds.HasPolicy | Services/AlertingService.cs:56-57 | the negation of the skip test: a range policy, or an upper bound that is not NaN |
| Thresholds.Breaches | Services/AlertingService.cs:76-86 | the per-value test of `All`: for a range, strictly below min or strictly above max; otherwise strictly above max; a comparison with NaN is false |
| Thresholds.ThresholdIgnoresCase | Services/AlertingService.cs:28-42 | two metric types equal under ordinal case-insensitive comparison get the same policy |
| Thresholds.NoPolicyIff | Services/AlertingService.cs:25-57 | the check's skip test holds exactly when temperature's configured bound is NaN, or another type's key is missing or NaN; humidity is never skipped |
| Thresholds.BoundaryDoesNotBreach | Services/AlertingService.cs:77-86 | a value equal to the upper bound, or to the minimum of a well-formed range, does not breach |
| Alerting.ConsecutiveCount | Services/AlertingService.cs:20 | the configured `Alerting:ConsecutiveBreachCount` when present, 3 otherwise; always an Int32 |
| Alerting.QueryLimit | Services/AlertingService.cs:63 | `N - 1` in 32-bit arithmetic: `Int32.MinValue - 1` wraps around to `Int32.MaxValue`, so the query then fetches the whole series; an Int32 stays an Int32 |
| Alerting.SameSeries | Services/AlertingService.cs:61 | the query's `Where` test: same sensor id, and the stored type lower-cases to the checked type |
| Alerting.Series | Services/AlertingService.cs:60-61 | the stored readings that pass the query's `Where`, in table order |
| Alerting.Recent | Services/AlertingService.cs:60-64 | the whole query: the series ordered by descending timestamp, then `Take(limit)` |
| Alerting.ValuesOf | Services/AlertingService.cs:68 | `Select(r => r.Value)`: one value per reading, in the same order |
| Alerting.Window | Services/AlertingService.cs:66-68 | `values`: the new value, then the values of the query for `QueryLimit(N)` over the table as it is when the check runs |
| Alerting.AllBreach | Services/AlertingService.cs:76-86 | `values.All(...)`: every value of the window breaches the policy |
| Alerting.AlertType | Services/AlertingService.cs:95 | the text "Consecutive {N} breach", with `N` written in decimal |
| Alerting.AlertFor | Services/AlertingService.cs:51-99 | the alert the check builds when there is a policy, the window holds at least `N` values and all of them breach; no alert otherwise. Its properties are the lemmas in the rows below |
| Alerting.EvaluateBreach | Services/AlertingService.cs:76-86 | the `All` loop returns true exactly when every value of the window breaches the policy |
| Alerting.AlertingService.constructor | Services/AlertingService.cs:16-23 | given a configuration with lower-cased keys and Int32 integers, the window size is `Alerting:ConsecutiveBreachCount`, 3 when not configured, and is an Int32 |
| Alerting.AlertingService.CheckAndCreateAlert | Services/AlertingService.cs:48-107 | the alerts table grows by exactly `AlertFor(...)`, judged against the readings table as it is when the check runs; nothing else changes; stored metric types stay lower-case |
| Alerting.RecentIsNewest | Services/AlertingService.cs:60-64 | the window query for `limit` returns `min(limit, series size)` readings, none when `limit <= 0`; as a multiset they are contained in the series, so no stored reading appears more often than it is stored; every one is a stored reading of the same sensor and lower-cased type; they are newest first, and no reading of the series left out is newer than one returned |
| Alerting.WindowShape | Services/AlertingService.cs:63-68 | the first entry of `values` is the new value, and the rest are the values of the query for `QueryLimit(N)`, in order; unless `N - 1` wraps around, there are at most `max(N, 1)` entries |
| Alerting.ShortHistoryNoAlert | Services/AlertingService.cs:70-74 | fewer than `N` values never raise an alert |
| Alerting.NoPolicyNoAlert | Services/AlertingService.cs:54-57 | an upper-only policy with a NaN bound never raises an alert |
| Alerting.UpperOnlyAlertIff | Services/AlertingService.cs:82-88 | under an upper-only policy, an alert is raised iff the window is full and every value is strictly above max (`AllAbove`) |
| Alerting.RangeAlertIff | Services/AlertingService.cs:77-88 | under a range policy, an alert is raised iff the window is full and every value is strictly below a finite min or strictly above a finite max (`AllOutside`) |
| Alerting.OneSafeValueBlocksAlert | Services/AlertingService.cs:76-88 | one non-breaching value anywhere in the window prevents the alert |
| Alerting.AlertForSome | Services/AlertingService.cs:54-88 | an alert is raised exactly when there is a policy, the window holds at least `N` values and every one breaches |
| Alerting.AlertContents | Services/AlertingService.cs:88-101 | an alert carries the reading's sensor, the lower-cased type, "Consecutive {N} breach", the reading's value, max as its threshold (also for ranges), and the check's time |
| Alerting.RecentWithNewest | Services/AlertingService.cs:60-64 | once a reading at least as new as every stored one is appended, the query for `k >= 1` returns it, followed by the old query for `k - 1` |
| Alerting.NewReadingCountedTwice | Services/AlertingService.cs:60-68 | when the new reading is already stored (Program.cs saves it first) and `N >= 2`, the window is `[v, v]` followed by the newest `N - 2` earlier values |
| Alerting.AlertAfterNMinusOneBreaches | Services/AlertingService.cs:60-102 | with `N >= 2`, a breaching new reading and `N - 2` breaching earlier ones raise an alert, i.e. after `N - 1` breaches |
| Api.PostMetric | Program.cs:34-54 | a null or blank sensor id or metric type gives BadRequest with both tables unchanged. Otherwise: Created with the reading (lower-cased type, server time); exactly that reading appended; then the alerts grow by the alert the check derives from the table that already holds it |
| Api.SaveAndCheck | Program.cs:47-51 | exactly the reading is appended, and only then does the check run, so the alerts grow by the alert derived from the table that already holds the reading; stored metric types stay lower-case |
| Api.ParseIntervalToUtcStart | Program.cs:104-125 | `ParseNormalizedInterval` of the trimmed, lower-cased text; its behaviour is stated by `ParseIntervalNormalizes` and the parse lemmas below |
| Api.SplitUnit | Program.cs:109-121 | the number text and the unit: a trailing h gives the rest and hours, a trailing m the rest and minutes, anything else the whole text and hours |
| Api.ParseNormalizedInterval | Program.cs:107-124 | the `try` block: when the number text parses as an Int32 `n`, `now - 60 n` for hours or `now - n` for minutes; otherwise null |
| Api.ParseIntervalNormalizes | Program.cs:106 | surrounding white space and letter case never change the parsed start (" 2H " and "2h" agree) |
| Api.ParseNormalized | Program.cs:106-124 | text that is already trimmed and lower-case is parsed as it is |
| Api.ParseHours | Program.cs:109-113 | "{n}h" gives `now - 60 n` for every Int32 `n`, negatives included |
| Api.ParseMinutes | Program.cs:114-118 | "{n}m" gives `now - n` |
| Api.ParseBareHours | Program.cs:119-121 | a bare integer gives `now - 60 n` |
| Api.ParseSuffixed | Program.cs:109-118 | a text ending in h or m after an integer prefix gives the hour or minute rule for that prefix |
| Api.ParseUnsuffixed | Program.cs:119-121 | an integer without suffix falls back to hours |
| Api.ParseSuffixedText | Program.cs:106-118 | for already-normalised decimal text `d` of `n`, "{d}h" gives `now - 60 n` and "{d}m" gives `now - n` |
| Api.ParseUnsuffixedText | Program.cs:106-121 | for already-normalised decimal text `d` of `n`, `d` gives `now - 60 n` |
| Api.ParseSuffixWithoutNumber | Program.cs:109-124 | a text ending in h or m whose prefix is not an integer ("h", "xh") gives null; the bare-integer rule is not tried |
| Api.ParseNonIntegerFails | Program.cs:119-124 | a text without suffix that is not an integer ("abc") gives null |
| Api.InWindow | Program.cs:66-68 | the matched readings are exactly the stored ones, with their multiplicities, whose type equals the query ignoring case and whose time is at or after start |
| Api.AlertsInWindow | Program.cs:80 | the alerts `alertsTriggered` counts (also at line 92): stored type equal to the lower-cased query, at or after start |
| Api.Aggregate | Program.cs:70-91 | no values give null average, min and max; otherwise average is sum over count, min and max are values that bound all others, and min <= average <= max |
| Api.Summarize | Program.cs:70-93 | the count is the number of matches; average, min and max are null iff there are none. Otherwise: average is sum over count; min and max are values of matches that bound all of them; min <= average <= max. `alertsTriggered` counts the alerts in the window in both branches |
| Api.GetSummary | Program.cs:56-65 | BadRequest with the first message iff a parameter is blank; with the second iff the interval does not parse; otherwise Ok with the summary from the parsed start |
| Api.AlertsInWindowIgnoresCase | Program.cs:80 | since alerts store lower-cased types (`AlertTypesLower`, part of `MetricsDb.Valid`), `alertsTriggered` counts exactly the alerts whose type equals the query ignoring case and whose time is at or after start |
| Api.SummaryIgnoresCase | Program.cs:66-92 | queries differing only in letter case give the same summary except for the echoed metric name |
| Api.ListAlerts | Program.cs:96-100 | returns as many alerts as `limit`, or all when there are fewer; none for `limit <= 0`, 100 by default; all are stored alerts, newest first, and no alert left out is newer than one listed |
| Sequences.TakeSortedIsNewest | Program.cs:98 | `OrderByDescending(...).Take(k)` is sorted, is drawn from the input, and leaves out nothing newer than what it keeps |
| Sequences.SortDesc | Services/AlertingService.cs:62 | `OrderByDescending` gives a permutation sorted by descending key |
| Sequences.Filter | Program.cs:67 | `Where` keeps each element satisfying the predicate, as often as it occurs, and nothing else |
| Sequences.Take | Services/AlertingService.cs:63 | `Take(k)` is the prefix of length `k` clamped between zero and the length |
| Sequences.Min | Program.cs:90 | `Min()` is an element no larger than any other |
| Sequences.Max | Program.cs:91 | `Max()` is an element no smaller than any other |
| Sequences.Sum | Program.cs:89 | the sum of the values, added from the front; `Average()` is this sum over the count |
| Sequences.AverageWithinRange | Program.cs:89-91 | `Average()` lies between `Min()` and `Max()` |
| Text.Trim | Program.cs:106 | `Trim` removes the white space at both ends and nothing else |
| Text.IsWhiteSpace | Program.cs:36 | `char.IsWhiteSpace`: the Unicode space separators, U+2028, U+2029 and the controls U+0009 to U+000D and U+0085 |
| Text.IsNullOrWhiteSpace | Program.cs:36 | `string.IsNullOrWhiteSpace`: null, or every character white space (the empty string included) |
| Text.EqualsIgnoreCase | Services/AlertingService.cs:28 | ordinal case-insensitive equality: same length, and equal after upper-casing each character |
| Text.EndsWithChar | Program.cs:109 | `EndsWith("h")` as a test of the last character of a non-empty text |
| Text.ToLower | Program.cs:42 | `ToLowerInvariant` maps each character to its lower-case form and keeps the length |
| Text.ToLowerIsLower | Program.cs:42 | a lower-cased string has no capitals, and a string is left unchanged by lower-casing iff it has none |
| Text.EqualsIgnoreCaseIffLower | Services/AlertingService.cs:28 | ordinal case-insensitive equality holds iff the lower-cased strings are equal |
| Text.NormalizeIdempotent | Program.cs:106 | trimming and lower-casing twice is the same as once |
| IntText.ParseInt | Program.cs:111 | `int.Parse` succeeds only with an Int32 |
| IntText.ParseIntToString | Program.cs:111-121 | parsing gives back every Int32 that decimal formatting writes |
| IntText.IntToString | Services/AlertingService.cs:95 | the decimal text {N} of the alert type: non-empty, digits with at most a leading minus sign, ending in a digit |
| Models.ConfigWellFormed | Services/AlertingService.cs:20-42 | the configuration the lookups expect: lower-cased keys, and integers in the Int32 range that `GetValue<int>` returns |
| Models.GetNumber | Services/AlertingService.cs:30-42 | `GetValue<double>(key, default)`: the configured value when the key is present, the default otherwise |
| Models.GetInteger | Services/AlertingService.cs:20 | `GetValue<int>(key, default)`: the configured value when the key is present, the default otherwise |
| Models.MetricsDb.constructor | Data/MetricsDbContext.cs:9-10 | the two tables, `metric_readings` and `alerts`, start empty, and so satisfy `Valid` |
| Models.MetricsDb.Valid | Program.cs:42 | every stored reading and alert has a metric type without capitals, as `ToLowerInvariant` leaves it |
| Models.ReadingTypesLower | Program.cs:42 | every reading's metric type is without capitals, as the POST handler stores it |
| Models.AlertTypesLower | Services/AlertingService.cs:51-94 | every alert's metric type is without capitals, as the check stores it |

## Left out

- Persistence: Entity Framework, Npgsql, the migration and `SaveChangesAsync` are left out. The two tables are sequences in a `MetricsDb` object. Row ids (`Id`, and the `Created` location that uses it) are not modelled.
- HTTP: routing, model binding, `Results.*` objects and Swagger are left out. A missing required query parameter, or a `limit` that does not bind, is rejected by ASP.NET before any handler runs, so no handler models it.
- Logging, and the startup migration, are not modelled.
- Concurrency: async/await, and two ingestions of one sensor racing, are not modelled. The model is sequential.
- Floating point: reading values are `real`, so rounding of `Average` is not modelled. A NaN reading value (JSON cannot carry one) is not modelled either. Configured bounds keep NaN, because the code tests for it.
- Clock: `DateTime.UtcNow` is the parameter `now`. The reading and its alert get the same `now`, though the code reads the clock twice.
- Api.ParseIntervalToUtcStart, Api.ParseNormalizedInterval, Api.ParseHours, Api.ParseMinutes, Api.ParseBareHours, Api.ParseSuffixed, Api.ParseUnsuffixed, Api.ParseSuffixedText, Api.ParseUnsuffixedText, Api.GetSummary: give a start (and the summary Ok) for every Int32. The code gets null, and the summary BadRequest with the second message, when `AddHours`/`AddMinutes` leave the `DateTime` range ("100000000h", say), because the catch swallows that exception. The `int` minutes have no such range.
- Api.ParseIntervalToUtcStart, Api.ParseMinutes, Api.ParseHours: `-n` is written as exact negation. In the code `-n` wraps around for `n = Int32.MinValue`, to `Int32.MinValue` itself, so "-2147483648m" asks for a start about 4083 years back, before year 1, and gives null (and "-2147483648h" likewise). The model gives a start `2^31` minutes (or hours) after `now`.
- Api.ListAlerts: a negative `limit` gives no alerts, as LINQ's `Take` does. Against PostgreSQL, a negative `LIMIT` is an error instead.
- Alerting.AlertingService.CheckAndCreateAlert, Alerting.AlertFor, Api.SaveAndCheck, Api.PostMetric: a window size `N <= 0` (other than `Int32.MinValue`, whose `N - 1` wraps around to `Int32.MaxValue` and fetches the whole series, as `QueryLimit` models) makes the query `Take(N - 1)` return nothing, as in LINQ. Against PostgreSQL the negative `LIMIT` is an error instead, so the POST fails after the reading is saved. The model instead judges the window made of the new value alone (an alert when it breaches) and returns Created.
- OrderByDescending: time is whole minutes, so readings posted in the same minute tie on the timestamp. The model orders tied readings later-stored first, standing for the code's finer `UtcNow` timestamps, under which the later-stored one is the newer. The database itself leaves the order of exact ties unspecified. `Alerting.AlertFor`, `Alerting.AlertingService.CheckAndCreateAlert`, `Api.PostMetric`, `Api.SaveAndCheck`, `Alerting.RecentWithNewest`, `Alerting.NewReadingCountedTwice` and `Alerting.AlertAfterNMinusOneBreaches` rely on that order: it decides which tied readings enter the window, and it puts the new reading first even when a stored one has the same minute.
- Text.ToLower, Text.EqualsIgnoreCase: `ToLowerInvariant`, SQL `lower()` and `OrdinalIgnoreCase` are modelled as mapping the ASCII letters only; non-ASCII letters (such as 'Ä') are left as they are, where .NET maps them too. The culture-sensitive `metricType.ToLower()` of the summary (Program.cs:67, 80, 92) is modelled as the invariant one, so a culture such as tr-TR, where "TITLE" lower-cases to "tıtle" and misses the stored "title", is not modelled.
- Text.EndsWithChar: `EndsWith("h")` is modelled as a test of the last character. Culture-sensitive matching of ignorable characters is not modelled.
- IntText.ParseInt: `int.Parse` is modelled with white space 0x09-0x0D and 0x20, an optional sign and decimal digits in the Int32 range. Trailing NUL characters and culture-specific signs are not accepted.
- Configuration: `IConfiguration` keys ignore case, so the model keys its maps by lower-cased keys, and `Models.ConfigWellFormed`, which the `AlertingService` constructor requires, says so. A value that does not convert to `double`/`int` (an exception in `GetValue`) is not modelled.
