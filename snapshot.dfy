/**
 * RxSnapshot's thresholded activity accessors and getWeatherConditions, end to end:
 * the guards run when the accessor is called; when they pass, the Single emits the
 * projection of the raw result the sensing service delivers (a parameter here).
 */
module Snapshot {
  import opened Wrappers
  import opened Activities
  import opened ApiKeyGuards
  import Weather

  /** The errors a Single of these accessors can emit. */
  datatype SnapshotError =
    | StoreOutOfBounds(store: Weather.StoreError)  // thrown inside a mapper
    | MapperReturnedNull                           // RxJava 2's `map` rejects a null mapper result

  /** What a subscriber of an accessor sees: a synchronous guard failure, an emitted value, or an emitted error. */
  datatype Emission<T> = Refused(missing: ApiKey) | Emits(value: T) | Errors(error: SnapshotError)

  /** RxJava 2's `Single.map` on a mapper result that may be null: a null becomes an error instead of a value. */
  function RxMap<T>(mapped: Option<T>): (e: Emission<T>)
    ensures e.Errors? <==> mapped.None?
    ensures e.Errors? ==> e.error == MapperReturnedNull
    ensures mapped.Some? ==> e == Emits(mapped.value)
  {
    match mapped
    case None => Errors(MapperReturnedNull)
    case Some(v) => Emits(v)
  }

  /** getMostProbableActivity(minimumProbability) for a delivered result `raw`. */
  function MostProbableActivityAtLeastCall(present: ApiKey -> bool, raw: ActivityRecognitionResult, minimum: int): (e: Emission<Option<DetectedActivity>>)
    ensures e.Refused? <==> !present(AwarenessApiKey)
    ensures e.Refused? ==> e.missing == AwarenessApiKey
    ensures e.Emits? ==> (e.value.None? <==> !Reaches(raw, raw.mostProbable, minimum))
    ensures e.Emits? && e.value.Some? ==> e.value.value == raw.mostProbable
    ensures !e.Errors?
  {
    match Invoke(GetMostProbableActivityAtLeast, present)
    case MissingApiKey(k) => Refused(k)
    case Built(_) => Emits(MostProbableActivityAtLeast(raw, minimum))
  }

  /**
   * getMostProbableActivity(minimumProbability) as written, on RxJava 2: the null
   * returned below the threshold never reaches the subscriber as a value; `map`
   * turns it into an error.
   */
  function MostProbableActivityAtLeastCallAsWritten(present: ApiKey -> bool, raw: ActivityRecognitionResult, minimum: int): (e: Emission<DetectedActivity>)
    ensures e.Refused? <==> !present(AwarenessApiKey)
    ensures e.Errors? <==> present(AwarenessApiKey) && !Reaches(raw, raw.mostProbable, minimum)
    ensures e.Errors? ==> e.error == MapperReturnedNull
    ensures e.Emits? ==> e.value == raw.mostProbable
  {
    match Invoke(GetMostProbableActivityAtLeast, present)
    case MissingApiKey(k) => Refused(k)
    case Built(_) => RxMap(MostProbableActivityAtLeast(raw, minimum))
  }

  /** getProbableActivities(minimumProbability) for a delivered result `raw`. */
  method ProbableActivitiesAtLeastCall(present: ApiKey -> bool, raw: ActivityRecognitionResult, minimum: int) returns (e: Emission<seq<DetectedActivity>>)
    ensures e.Refused? <==> !present(AwarenessApiKey)
    ensures e.Refused? ==> e.missing == AwarenessApiKey
    ensures e.Emits? ==> e.value == Matching(raw, raw.probable, minimum)
    ensures !e.Errors?
  {
    match Invoke(GetProbableActivitiesAtLeast, present)
    case MissingApiKey(k) =>
      e := Refused(k);
    case Built(_) =>
      var matching := ProbableActivitiesAtLeast(raw, minimum);
      e := Emits(matching);
  }

  /** getWeatherConditions for a weather whose conditions array is `conditions`, with the corrected first stage. */
  method WeatherConditionsCall(present: ApiKey -> bool, conditions: seq<int>) returns (e: Emission<seq<int>>)
    ensures e.Refused? <==> !present(AwarenessApiKey)
    ensures e.Refused? ==> e.missing == AwarenessApiKey
    ensures !e.Refused? ==> e == Emits(conditions)
  {
    match Invoke(GetWeatherConditions, present)
    case MissingApiKey(k) =>
      e := Refused(k);
    case Built(_) =>
      var list := Weather.WeatherConditions(conditions);
      assert list.value == conditions;
      e := Emits(list.value);
  }

  /** getWeatherConditions as written: the zero-length copy makes every non-empty conditions array an emitted error. */
  method WeatherConditionsCallAsWritten(present: ApiKey -> bool, conditions: seq<int>) returns (e: Emission<seq<int>>)
    ensures e.Refused? <==> !present(AwarenessApiKey)
    ensures e.Refused? ==> e.missing == AwarenessApiKey
    ensures present(AwarenessApiKey) && conditions != [] ==> e == Errors(StoreOutOfBounds(Weather.ArrayIndexOutOfBounds(0, 0)))
    ensures present(AwarenessApiKey) && conditions == [] ==> e == Emits([])
  {
    match Invoke(GetWeatherConditions, present)
    case MissingApiKey(k) =>
      e := Refused(k);
    case Built(_) =>
      var list := Weather.WeatherConditionsAsWritten(conditions);
      match list
      case Failure(err) => e := Errors(StoreOutOfBounds(err));
      case Success(l) => e := Emits(l);
  }

  /**
   * A threshold of 75 against a top candidate of confidence 60 emits an explicit
   * null, not an error.
   */
  lemma BelowThresholdEmitsNull(present: ApiKey -> bool, activityType: int)
    requires present(AwarenessApiKey)
    ensures MostProbableActivityAtLeastCall(present,
              ActivityRecognitionResult(DetectedActivity(activityType), [DetectedActivity(activityType)],
                                        t => if t == activityType then 60 else 0),
              75) == Emits(None)
  {
  }

  /** The same call as written errs on RxJava 2 instead of emitting null. */
  lemma BelowThresholdErrsAsWritten(present: ApiKey -> bool, activityType: int)
    requires present(AwarenessApiKey)
    ensures MostProbableActivityAtLeastCallAsWritten(present,
              ActivityRecognitionResult(DetectedActivity(activityType), [DetectedActivity(activityType)],
                                        t => if t == activityType then 60 else 0),
              75) == Errors(MapperReturnedNull)
  {
  }

  /** Both versions agree whenever the threshold is met; they differ exactly below it. */
  lemma {:induction false} AsWrittenAgreesWhenThresholdMet(present: ApiKey -> bool, raw: ActivityRecognitionResult, minimum: int)
    requires present(AwarenessApiKey)
    ensures Reaches(raw, raw.mostProbable, minimum) <==>
      (MostProbableActivityAtLeastCallAsWritten(present, raw, minimum) == Emits(raw.mostProbable) &&
       MostProbableActivityAtLeastCall(present, raw, minimum) == Emits(Some(raw.mostProbable)))
  {
  }
}
