# RxAwareness snapshot projections in Dafny

RxAwareness wraps Google's Awareness Snapshot API in RxJava `Single`s. Its
`RxSnapshot` class has one accessor per kind of context (weather, location,
activity, headphones, nearby places, beacons). Each accessor first checks the
API keys it needs (`guardWithApiKey`) and only then builds the request `Single`.
Accessors derived from another one map that accessor's result (`getTemperature`
maps `getWeather`, `getProbableActivities(int)` maps `getActivity`, and so on).

This project models the rules applied to a raw result after it arrives, and the
key-guard table that runs before any request:

- `Activities`: `getMostProbableActivity()` and `getMostProbableActivity(int)`,
  which returns null (`None`) below the threshold. `getProbableActivities()` and
  `getProbableActivities(int)`, which filters in a loop against the reference
  filter `Matching`. Confidence is always read through the result's lookup
  `getActivityConfidence(type)`, never from the activity itself. The model keeps
  that lookup as a function field of the result.
- `Weather`: both stages of `getWeatherConditions`. The first stage copies an
  `int[]` slot by slot into an `Integer[]`, with the JVM's bounds check on each
  store. The second stage adds that array to a new list.
- `ApiKeyGuards`: which API keys each accessor checks, and in what order. The
  first missing key fails the call synchronously, before any `Single` exists.
  Whether a key is configured is a parameter `present: ApiKey -> bool`, because
  `ApiKeyGuard` is not part of this model.
- `Snapshot`: the thresholded activity accessors and `getWeatherConditions`,
  end to end. The guard runs first. When it passes, the call emits the projection
  of a raw result, which is passed in as a parameter. Each of the two defective
  accessors comes in two versions, both listed under Findings. The as-written
  version models RxJava 2 rejecting a null result, or the out-of-bounds copy.
  The intended version emits null below the threshold, as the Javadoc promises,
  or copies every condition.

## Model

| member | source | states |
|---|---|---|
| `Activities.MostProbableActivity` | rxawareness/src/main/java/com/ivianuu/rxawareness/RxSnapshot.java:251-259 | the unthresholded accessor gives the top candidate; it is what the thresholded accessor returns at every threshold that candidate meets |
| `Activities.ProbableActivities` | rxawareness/src/main/java/com/ivianuu/rxawareness/RxSnapshot.java:293-301 | the unthresholded accessor gives the probable list as delivered, unchanged |
| `Activities.MostProbableActivityAtLeast` | rxawareness/src/main/java/com/ivianuu/rxawareness/RxSnapshot.java:272-283 | null exactly when the top candidate's looked-up confidence is below the threshold; otherwise the top candidate, unchanged |
| `Activities.Matching` | rxawareness/src/main/java/com/ivianuu/rxawareness/RxSnapshot.java:319-327 | reference filter: the candidates that reach the threshold, in order; never longer than its input |
| `Activities.ProbableActivitiesAtLeast` | rxawareness/src/main/java/com/ivianuu/rxawareness/RxSnapshot.java:313-330 | the loop builds exactly the reference filter of the probable candidates. Each candidate that reaches the threshold appears as often as in the input; every other candidate does not appear. The result is a subsequence of the input and never longer |
| `Activities.MatchingAppend` | rxawareness/src/main/java/com/ivianuu/rxawareness/RxSnapshot.java:321-325 | appending one candidate at a time adds that candidate exactly when it passes: filtering distributes over concatenation |
| `Activities.MatchingCount` | rxawareness/src/main/java/com/ivianuu/rxawareness/RxSnapshot.java:318-327 | multiplicity of every candidate in the filtered list: its input multiplicity if it reaches the threshold, else zero |
| `Activities.MatchingMembership` | rxawareness/src/main/java/com/ivianuu/rxawareness/RxSnapshot.java:321-325 | a candidate is in the filtered list if and only if it is probable and its confidence is at least the threshold (equal is kept, strictly below is dropped) |
| `Activities.MatchingAllReach` | rxawareness/src/main/java/com/ivianuu/rxawareness/RxSnapshot.java:322-323 | every element of the filtered list reaches the threshold |
| `Activities.MatchingIsSubsequence` | rxawareness/src/main/java/com/ivianuu/rxawareness/RxSnapshot.java:319-327 | the filtered list is a subsequence of the probable list (relative order kept) |
| `Activities.MatchingEmpty` | rxawareness/src/main/java/com/ivianuu/rxawareness/RxSnapshot.java:304-327 | the filtered list is empty, with no error, if and only if no probable candidate reaches the threshold |
| `Activities.NoCandidateBelowKeepsAll` | rxawareness/src/main/java/com/ivianuu/rxawareness/RxSnapshot.java:293-330 | with a threshold no probable candidate falls below, the thresholded list equals the unthresholded one |
| `Activities.ThresholdAgreesWhenMet` | rxawareness/src/main/java/com/ivianuu/rxawareness/RxSnapshot.java:251-283 | the unthresholded accessor always gives the top candidate, and the thresholded one gives that same candidate exactly when the threshold is met (null otherwise) |
| `Activities.ThresholdMonotone` | rxawareness/src/main/java/com/ivianuu/rxawareness/RxSnapshot.java:277-281 | a candidate returned at some threshold is also returned at every lower threshold |
| `Activities.TopCandidateSurvivesFilter` | rxawareness/src/main/java/com/ivianuu/rxawareness/RxSnapshot.java:272-330 | the two thresholded accessors agree: a returned top candidate that is among the probable ones is kept by the list filter |
| `Weather.CopyInto` | rxawareness/src/main/java/com/ivianuu/rxawareness/RxSnapshot.java:169-172 | the bounds-checked copying loop succeeds exactly when the conditions fit the destination and then copies them in order; otherwise it fails at the first index past the end |
| `Weather.CopyConditionsAsWritten` | rxawareness/src/main/java/com/ivianuu/rxawareness/RxSnapshot.java:169-173 | with the zero-length destination as written, the stage succeeds (with an empty array) only for empty conditions and otherwise fails with an out-of-bounds store at index 0 |
| `Weather.OneConditionFailsAsWritten` | rxawareness/src/main/java/com/ivianuu/rxawareness/RxSnapshot.java:169-172 | a single condition already makes the stage as written fail |
| `Weather.CopyConditions` | rxawareness/src/main/java/com/ivianuu/rxawareness/RxSnapshot.java:169-173 | with a destination of the conditions' length, the stage always succeeds and copies the conditions unchanged |
| `Weather.AddAll` | rxawareness/src/main/java/com/ivianuu/rxawareness/RxSnapshot.java:180 | the existing elements stay first and the added ones follow, in order |
| `Weather.ToList` | rxawareness/src/main/java/com/ivianuu/rxawareness/RxSnapshot.java:178-181 | the list stage preserves length and element order |
| `Weather.WeatherConditions` | rxawareness/src/main/java/com/ivianuu/rxawareness/RxSnapshot.java:164-184 | with the corrected first stage, the emitted list has the conditions' length and elements, in order |
| `Weather.WeatherConditionsAsWritten` | rxawareness/src/main/java/com/ivianuu/rxawareness/RxSnapshot.java:164-184 | as written, a list is emitted only for an empty conditions array, and it is empty |
| `ApiKeyGuards.GuardingAccessor` | rxawareness/src/main/java/com/ivianuu/rxawareness/RxSnapshot.java:94-330 | the five weather projections go through getWeather, getLatLng and getSpeed through getLocation, and the four activity projections through getActivity; the seven guarding accessors guard for themselves |
| `ApiKeyGuards.SourceOf` | rxawareness/src/main/java/com/ivianuu/rxawareness/RxSnapshot.java:81-384 | the Single built or mapped by each accessor: the weather Single for getWeather and its five projections, the location Single for getLocation, getLatLng and getSpeed, the activity Single for getActivity and its four projections, and the headphone, nearby and beacon Singles for their own accessors only |
| `ApiKeyGuards.RequiredKeys` | rxawareness/src/main/java/com/ivianuu/rxawareness/RxSnapshot.java:81-384 | each accessor checks one or two keys, the Awareness key first. The Places key is checked only for nearby places and the Beacon key only for beacons |
| `ApiKeyGuards.FirstMissingKey` | rxawareness/src/main/java/com/ivianuu/rxawareness/RxSnapshot.java:351-352 | the guards in call order pass if and only if every key is present; otherwise they report the first missing key, and every key before it is present |
| `ApiKeyGuards.Invoke` | rxawareness/src/main/java/com/ivianuu/rxawareness/RxSnapshot.java:366-368 | a call builds its Single if and only if all required keys are present; otherwise it fails with a missing required key and builds nothing |
| `ApiKeyGuards.AwarenessCheckedFirst` | rxawareness/src/main/java/com/ivianuu/rxawareness/RxSnapshot.java:82-83 | without the Awareness key every accessor fails with that key, whatever else is missing |
| `ApiKeyGuards.GuardOutcome` | rxawareness/src/main/java/com/ivianuu/rxawareness/RxSnapshot.java:380-383 | full outcome in call order: the Awareness key is checked first, then the second key if any, then the Single is built |
| `ApiKeyGuards.DerivedAccessorsGuardLikeTheirBase` | rxawareness/src/main/java/com/ivianuu/rxawareness/RxSnapshot.java:251-252 | a derived accessor fails or succeeds exactly as the accessor it maps |
| `Snapshot.MostProbableActivityAtLeastCall` | rxawareness/src/main/java/com/ivianuu/rxawareness/RxSnapshot.java:270-284 | fails synchronously exactly when the Awareness key is missing. Otherwise it emits null exactly when the top candidate is below the threshold, and the top candidate otherwise; never an error. This is the intended version, with null emitted as the Javadoc promises |
| `Snapshot.RxMap` | rxawareness/src/main/java/com/ivianuu/rxawareness/RxSnapshot.java:273-283 | RxJava 2's `map` on a mapper result: a null becomes an emitted error, any other value is emitted unchanged |
| `Snapshot.MostProbableActivityAtLeastCallAsWritten` | rxawareness/src/main/java/com/ivianuu/rxawareness/RxSnapshot.java:270-284 | as written on RxJava 2: fails synchronously exactly when the Awareness key is missing; otherwise it errs exactly when the top candidate is below the threshold and emits the top candidate otherwise |
| `Snapshot.ProbableActivitiesAtLeastCall` | rxawareness/src/main/java/com/ivianuu/rxawareness/RxSnapshot.java:311-330 | fails synchronously exactly when the Awareness key is missing; otherwise emits the filtered list, never an error |
| `Snapshot.WeatherConditionsCall` | rxawareness/src/main/java/com/ivianuu/rxawareness/RxSnapshot.java:162-184 | fails synchronously exactly when the Awareness key is missing; otherwise emits the conditions as a list (corrected first stage) |
| `Snapshot.WeatherConditionsCallAsWritten` | rxawareness/src/main/java/com/ivianuu/rxawareness/RxSnapshot.java:162-184 | as written: fails synchronously exactly when the Awareness key is missing; otherwise emits an out-of-bounds error at index 0 for any non-empty conditions array, and an empty list for an empty one |
| `Snapshot.BelowThresholdEmitsNull` | rxawareness/src/main/java/com/ivianuu/rxawareness/RxSnapshot.java:261-264 | intended version: a threshold of 75 against a top candidate of confidence 60 emits null, not an error |
| `Snapshot.BelowThresholdErrsAsWritten` | rxawareness/src/main/java/com/ivianuu/rxawareness/RxSnapshot.java:277-279 | as written on RxJava 2: the same input makes the Single emit an error instead of null |
| `Snapshot.AsWrittenAgreesWhenThresholdMet` | rxawareness/src/main/java/com/ivianuu/rxawareness/RxSnapshot.java:277-281 | the as-written and intended versions both emit the top candidate exactly when the threshold is met, so they differ only below it |

## Left out

- The request Singles (`WeatherSingle`, `LocationSingle`, `ActivitySingle`, `HeadphoneSingle`, `NearbySingle`, `BeaconSingle`) and the client connect/request/unwrap/disconnect adapter beneath them: they delegate to the Play Services client and to the rxplayservices library, which are not part of this model. The raw result they deliver is a parameter.
- RxJava `Single`/`map` plumbing, subscription, threading and cancellation: each projection is a plain function or method from the raw result to the emitted value, and an exception inside `map` is an emitted error. Only `map`'s rejection of a null result is modelled, by `Snapshot.RxMap`. RxJava's source is not part of this model; that rule follows RxJava 2's documented behaviour.
- `ApiKeyGuard`: not part of this model. Whether a key is configured in the manifest is the parameter `present`, and a failing guard is `MissingApiKey(key)`. The exception type it throws is not modelled.
- The floating-point and plain-getter projections `getTemperature`, `getFeelsLikeTemperature`, `getDewPoint`, `getHumidity`, `getLatLng`, `getSpeed`: they read fields of library types. Only their guard behaviour, through `getWeather`/`getLocation`, is modelled, by `ApiKeyGuards.GuardingAccessor`.
- `getWeather`, `getLocation`, `getActivity`, `headphonesPluggedIn`, `getNearbyPlaces`, `getBeacons`: they are modelled only as guards followed by building their Single (`ApiKeyGuards.Invoke`). The beacon type filters are not used by any modelled rule.
- `RxSnapshot.create`, the `Context` field, and the `@RequiresPermission`/`@RequiresApi` annotations: they hold no logic beyond construction and declarations.
- `DetectedActivity`'s own confidence field: the projections never read it.
- The `ArrayList` capacity passed in at lines 179 and 319: it is a performance hint. It affects neither the contents nor the order.
- `getWeatherConditions` reads `weather.getConditions()` again on every iteration. The model reads it once, assuming the getter returns the same array each time.
- `Weather.CopyInto`: it does not say what the unfilled slots hold when the destination is larger than the conditions (null in Java). No call in the model uses a larger destination.
- The fence module's `UnregisterBackgroundFenceAction` is not part of this model: it is callback-driven client I/O and logging.

## Findings

| source | as written | input that shows it | evidently intended | confidence | as-written member | corrected member |
|---|---|---|---|---|---|---|
| rxawareness/src/main/java/com/ivianuu/rxawareness/RxSnapshot.java:169-172 | the destination is `new Integer[]{}`, of length zero, and the loop stores into it at every index of the conditions array | a weather with one condition, e.g. `[1]`: the store at index 0 throws `ArrayIndexOutOfBoundsException`, so `getWeatherConditions` emits an error instead of `[1]` | a destination of `weather.getConditions().length` slots, so every condition is copied and the list equals the conditions | not executed | `Weather.CopyConditionsAsWritten` (with `Weather.OneConditionFailsAsWritten`, `Weather.WeatherConditionsAsWritten`, `Snapshot.WeatherConditionsCallAsWritten`) | `Weather.CopyConditions` (with `Weather.WeatherConditions`, used by `Snapshot.WeatherConditionsCall`) |
| rxawareness/src/main/java/com/ivianuu/rxawareness/RxSnapshot.java:277-279 | below the threshold the mapper passed to `Single.map` returns `null`. RxJava 2 (`io.reactivex`, line 40) does not emit a null mapper result: it signals a `NullPointerException` to the subscriber | a top candidate of confidence 60 with `getMostProbableActivity(75)`: the subscriber receives an error, not the null the Javadoc at lines 262-266 promises | the Single emits an absent value (null, or an empty `Optional`-like wrapper) that the subscriber can check | not executed; relies on RxJava 2's documented null rejection, whose source is not part of this model | `Snapshot.MostProbableActivityAtLeastCallAsWritten` (with `Snapshot.RxMap`, `Snapshot.BelowThresholdErrsAsWritten`) | `Snapshot.MostProbableActivityAtLeastCall` (with `Snapshot.BelowThresholdEmitsNull`, `Snapshot.AsWrittenAgreesWhenThresholdMet`) |
