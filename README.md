# willItRain: tomorrow's rain verdict, modelled in Dafny

willItRain answers "will it rain tomorrow?" for a named place. It geocodes the
place, fetches a 3-hourly forecast, keeps the samples that fall on the
location's local "tomorrow", and reduces them to a verdict. The verdict has
three parts: whether it rains, the highest probability of precipitation, and
the rainy slots sorted by time.

This project models that core:

- `LocalDay` (`local_day.dfy`) covers `src/utils/date.js`. It models local day
  starts under a fixed UTC offset and the half-open tomorrow window. Everything
  is in whole seconds with Euclidean division, so negative offsets work.
- `Rain` (`rain.dfy`) covers the aggregation in `checkRainTomorrow`. That is the
  volume fallback, the rain trigger, the loop that collects `rainySlots` and
  `willRain`, the max fold over probabilities, two-decimal rounding and the sort
  by time.
- `WeatherService` (`weather_service.dfy`) covers the rest of
  `src/services/weather.service.js`. That is the empty-geocode check, the
  timezone default, the tomorrow filter, the resolved-place label, and
  `checkRainTomorrow` itself. The two HTTP responses and the current instant are
  parameters.
- `AsWritten` (`as_written.dfy`) holds the code as written where it throws (see
  Findings).
- `Wrappers` (`wrappers.dfy`) holds `Option` and `Result`.

Three points follow the code rather than what a reader of the service's description might expect:

- The day start stays in the shifted frame, which is what `isTomorrowSlot`
  compares against. The code never converts it back to UTC.
- A sample without a usable timestamp is not rejected. The code has no such
  check, and the model's timestamps are always integers.
- The volume takes the 3-hour reading first, then the 1-hour reading. It does
  not pick by the sample's cadence.

## Model

| member | source | states |
|---|---|---|
| `LocalDay.LocalDayStart` | src/utils/date.js:3-8 | the day start is a multiple of 86400 and `start <= t + offset < start + 86400`, for any sign of the offset |
| `LocalDay.DayStartUnique` | src/utils/date.js:3-8 | any day boundary within one day at or below the shifted instant is the day start |
| `LocalDay.DayStartOnBoundary` | src/utils/date.js:3-8 | a shifted instant already on a boundary is its own day start |
| `LocalDay.DayStartIdempotent` | src/utils/date.js:3-8 | taking the day start of a day start changes nothing |
| `LocalDay.TomorrowWindow` | src/utils/date.js:11-13 | tomorrow starts on a day boundary strictly after now and at most a day later, one day after today's start; the day after starts 86400 s after that |
| `LocalDay.IsTomorrowSlot` | src/utils/date.js:10-17 | the classifier: a tomorrow slot lies strictly after now and less than two days after it |
| `LocalDay.TomorrowIsNextLocalDay` | src/utils/date.js:10-17 | a slot is a tomorrow slot iff its local day start is now's local day start plus one day |
| `LocalDay.WindowHalfOpen` | src/utils/date.js:17 | the first and last second of the window are in; the second before and the start of the day after are out |
| `LocalDay.ShiftInvariance` | src/utils/date.js:11-15 | the test depends only on shifted instants: `(s, o, n)` and `(s + o, 0, n + o)` agree |
| `LocalDay.WindowConvex` | src/utils/date.js:17 | an instant between two tomorrow slots is a tomorrow slot |
| `LocalDay.OffsetSensitivity` | src/utils/date.js:10-17 | one UTC instant is tomorrow at offset 0 and not at offset +7200 |
| `LocalDay.OneClockReading` | src/utils/date.js:10 | at offset 0 no single `now` makes both 86400 and 172800 tomorrow slots, while clock readings of 86399 and 86400, one per sample, do |
| `LocalDay.MillisecondsAgree` | src/utils/date.js:11-17 | the test on milliseconds (day start times 1000, days of 24 * 3600 * 1000) agrees with the test on seconds |
| `LocalDay.HourlyCount` | src/utils/date.js:10-17 | of the first n <= 48 hourly samples from today's local start, max(0, n - 24) are tomorrow slots |
| `LocalDay.HourlySplit` | src/utils/date.js:10-17 | 48 hourly samples from today's local start split into exactly 24 tomorrow slots and 24 others |
| `Rain.Volume` | src/services/weather.service.js:31 | the 3-hour reading if present and non-zero, else the 1-hour reading if present and non-zero, else 0 |
| `Rain.PopOf` | src/services/weather.service.js:42 | `s.pop ?? 0`: the sample's probability, 0 when missing |
| `Rain.Rainy` | src/services/weather.service.js:31-32 | rainy iff a present probability of at least 0.3, a positive 3-hour reading, or a positive 1-hour reading where the 3-hour one is missing or zero |
| `Rain.RainTriggers` | src/services/weather.service.js:32 | the 0.3 threshold is inclusive (0.30 rains, 0.29 without volume does not); volume alone or probability alone triggers rain |
| `Rain.Hundredths` | src/services/weather.service.js:36 | `toFixed(2)` picks the nearest whole number of hundredths, a tie going to the larger magnitude |
| `Rain.Round2` | src/services/weather.service.js:54 | the rounded value is a whole number of hundredths within 0.005 of the input |
| `Rain.Round2Fixes` | src/services/weather.service.js:54 | rounding leaves a two-decimal value unchanged |
| `Rain.Entry` | src/services/weather.service.js:34-38 | an entry carries the sample's time, its probability rounded to two decimals, and its selected raw, unrounded volume |
| `Rain.RainyEntries` | src/services/weather.service.js:30-40 | the reference for the loop: at most one entry per sample, and one for every sample exactly when all samples are rainy |
| `Rain.RainyEntriesMembers` | src/services/weather.service.js:30-40 | the collected entries are exactly the entries of the rainy samples |
| `Rain.RainyEntriesNonEmpty` | src/services/weather.service.js:27-40 | entries are collected iff some sample is rainy |
| `Rain.MaxPop` | src/services/weather.service.js:42 | the fold is at least 0, at least every sample's probability (missing counts as 0), and equal to one of them unless it is 0; it is 0 for no samples |
| `Rain.Max` | src/services/weather.service.js:42 | `Math.max` of two numbers is at least both and equal to one of them |
| `Rain.SnocMax` | src/services/weather.service.js:42 | one more sample at the end takes the max of the fold so far and its probability |
| `Rain.SnocRainy` | src/services/weather.service.js:30-40 | one more sample at the end appends its entry iff it is rainy |
| `Rain.InsertByTime` | src/services/weather.service.js:55 | inserting into a sorted list keeps it sorted and adds exactly that entry |
| `Rain.SortByTime` | src/services/weather.service.js:55 | the result is sorted ascending by time and is a permutation of the input |
| `Rain.SortKeepsEntries` | src/services/weather.service.js:55 | sorting keeps exactly the same entries |
| `Rain.SortedPermutationUnique` | src/services/weather.service.js:55 | two sorted permutations of entries with distinct times are equal |
| `Rain.SortIgnoresInputOrder` | src/services/weather.service.js:55 | with distinct times the sorted entries do not depend on the input order |
| `Rain.ScenarioHighest` | src/services/weather.service.js:42 | slots with probabilities 0.1, 0.4, 0.0, 0.35, 0.2 give a highest probability of 0.4 |
| `Rain.ScenarioRainy` | src/services/weather.service.js:30-40 | of those slots, with no volume, exactly the 0.4 and 0.35 ones are rainy, in order |
| `Rain.CollectRainy` | src/services/weather.service.js:27-40 | the loop's `rainySlots` are the rainy samples' entries in input order, and `willRain` holds iff it collected any |
| `Rain.Aggregate` | src/services/weather.service.js:27-55 | `willRain` iff some tomorrow sample is rainy iff `rainySlots` is non-empty; the highest probability is the rounded max over all tomorrow samples; `rainySlots` is sorted and a permutation of the rainy samples' entries |
| `WeatherService.GeocodeCity` | src/services/weather.service.js:4-13 | a body that is not an array, or an empty array, gives "Location not found"; otherwise the first match |
| `WeatherService.TimezoneOffset` | src/services/weather.service.js:23 | the forecast's city timezone, 0 when the city or its timezone is missing |
| `WeatherService.TomorrowSlots` | src/services/weather.service.js:25 | every kept sample is a tomorrow slot, and each sample is kept exactly as often as it occurs if it is a tomorrow slot and never otherwise |
| `WeatherService.TomorrowSlotsAppend` | src/services/weather.service.js:25 | the filter keeps input order: it distributes over concatenation |
| `WeatherService.KeptPart` | src/services/weather.service.js:47 | `filter(Boolean)` keeps a part exactly when it is present and non-empty |
| `WeatherService.LabelParts` | src/services/weather.service.js:47 | the surviving parts are non-empty, one per present non-empty part, in the order name, state, country |
| `WeatherService.Join` | src/services/weather.service.js:47 | the join of no parts is empty; otherwise it starts with the first part and is as long as the parts plus one separator between neighbours |
| `WeatherService.JoinUpToThree` | src/services/weather.service.js:47 | joins of one, two and three parts are the parts separated by single spaces |
| `WeatherService.JoinSplit` | src/services/weather.service.js:47 | joining the pieces of a split on spaces restores the string |
| `WeatherService.SplitJoin` | src/services/weather.service.js:47 | splitting the space-join of space-free words gives the words back |
| `WeatherService.JoinEmpty` | src/services/weather.service.js:47 | a join of non-empty parts is empty iff there are no parts |
| `WeatherService.ResolvedLabel` | src/services/weather.service.js:47 | the label is empty iff no part survives; for one, two or three surviving parts it is those parts separated by single spaces, whatever they contain; when they contain no spaces it splits back into them |
| `WeatherService.CheckRainTomorrow` | src/services/weather.service.js:15-58 | it fails with "Location not found" iff geocoding finds nothing. Otherwise it echoes the query, label, coordinates and offset (0 when absent), and its verdict is `Aggregate`'s over exactly the forecast samples on the location's tomorrow: the same rain flag, rounded highest probability, sortedness, membership and multiset of rainy entries |
| `AsWritten.LocalDayStartAsWritten` | src/utils/date.js:7 | as written, the day start always throws a TypeError |
| `AsWritten.IsTomorrowSlotAsWritten` | src/utils/date.js:11 | as written, the tomorrow test always throws |
| `AsWritten.TomorrowSlotsAsWritten` | src/services/weather.service.js:25 | as written, the filter throws iff the forecast list is non-empty |
| `AsWritten.TomorrowFilterThrows` | src/services/weather.service.js:25 | one sample on tomorrow makes the code throw, while the corrected filter keeps it |
| `AsWritten.CollectRainyAsWritten` | src/services/weather.service.js:30-40 | as written, the loop throws iff the tomorrow list is non-empty |
| `AsWritten.UnboundPopThrows` | src/services/weather.service.js:32 | a tomorrow slot with probability 0.5 makes the loop as written throw, but is rainy once corrected and yields one entry |

## Left out

- The HTTP client, its interceptors and both requests are not modelled
  (src/utils/http.js, src/services/weather.service.js:6,18-20). The geocoding
  body and the forecast body are plain parameters. `units` and `lang` only pass
  through to the request, so they are not modelled either.
- The Express app, the routes, the health check and the static site are web
  plumbing, so they are not modelled.
- The controller's request schema is not modelled. It is a thin wrapper over a
  validation library that is not part of this model.
- Environment loading and `process.exit` are process configuration, so they are
  not modelled.
- `Date.now()` as the default `now` is not modelled. `now` is always an explicit
  parameter.
- The code reads the clock once per sample: the default `now` at
  src/utils/date.js:10 is evaluated on each call that
  src/services/weather.service.js:25 makes. The model uses one `now` for the
  whole filter, so a filter that runs across local midnight is not modelled.
  For example, at offset 0 the code keeps samples at 86400 and 172800 when the
  clock passes 86400 between the two calls; no single `now` keeps both
  (`LocalDay.OneClockReading`).
- JavaScript `Date` and the host time zone are not modelled; the model uses
  whole-second integer arithmetic. The model equals the code's evident intent
  on a UTC host, where `new Date(y, m, d)` is midnight of the shifted date, for
  shifted dates in year 100 or later and within `Date`'s range. Two edges are
  not modelled: `new Date(y, m, d)` reads years 0 to 99 as 1900 to 1999, and a
  shifted instant beyond 8.64e15 ms either way gives an Invalid Date, so no
  sample counts as tomorrow.
- Binary floating point is not modelled. Probabilities and volumes are exact
  reals and the 0.3 threshold is exactly 3/10. `toFixed(2)` is modelled on
  exact decimals, and `Math.max` over NaN is not modelled.
- Non-integer timestamps and offsets, and a `list` that is not an array, are not
  modelled. In the corrected code, a missing `dt` makes the comparisons false
  and the sample is dropped; as written, the day start throws first. In the model every sample has an integer `dt`.
- Probabilities are not range-checked. Like the code, the model takes
  `s.pop ?? 0` as given, even outside [0, 1].
- SortByTime: it is a stable sort, placing entries of equal time in input order
  as JavaScript's sort does, but stability is not stated as a property. Only
  sortedness and permutation are stated, plus order independence when times are
  distinct.

## Findings

| source | as written | input that shows it | evidently intended | confidence | as-written member | corrected member |
|---|---|---|---|---|---|---|
| src/utils/date.js:7 | `date.getDate().getTime()` calls `getTime` on a number, so every call throws a TypeError, and so does the filter at src/services/weather.service.js:25 on any non-empty forecast | a forecast with one sample at 86400 s, now 0, offset 0 | `getLocalDayStart` returns midnight of the shifted day in the shifted frame | high (not executed) | `AsWritten.TomorrowFilterThrows` | `LocalDay.LocalDayStart` |
| src/services/weather.service.js:32 | `pop` is not bound in the loop, so the first iteration throws a ReferenceError, either at line 32 or, when volume short-circuits it, at line 36; latent: reached only once src/utils/date.js:7 is corrected, since as written the filter at line 25 throws first on any non-empty list and an empty list never enters the loop | once src/utils/date.js:7 is corrected, one tomorrow sample with probability 0.5 and no rain | the current sample's probability, `s.pop ?? 0` | high (not executed) | `AsWritten.UnboundPopThrows` | `Rain.Aggregate` |
