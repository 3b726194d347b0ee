/**
 * The API-key guards of RxSnapshot: before building its Single, each accessor
 * synchronously checks a fixed list of API keys, in a fixed order.
 */
module ApiKeyGuards {
  import opened Wrappers

  /** The API keys an accessor may require in the application's manifest. */
  datatype ApiKey = AwarenessApiKey | PlacesApiKey | BeaconApiKey

  /** The public accessors of RxSnapshot (the two getBeacons overloads told apart by their parameter). */
  datatype Accessor =
    | GetWeather | GetTemperature | GetFeelsLikeTemperature | GetDewPoint | GetHumidity | GetWeatherConditions
    | GetLocation | GetLatLng | GetSpeed
    | GetActivity | GetMostProbableActivity | GetMostProbableActivityAtLeast
    | GetProbableActivities | GetProbableActivitiesAtLeast
    | HeadphonesPluggedIn | GetNearbyPlaces | GetBeaconsVarargs | GetBeaconsCollection

  /** The request Single underneath an accessor's result. */
  datatype SingleSource = WeatherSingle | LocationSingle | ActivitySingle | HeadphoneSingle | NearbySingle | BeaconSingle

  /** An accessor call: either its Single is built, or a guard fails before anything is built. */
  datatype Guarded = Built(source: SingleSource) | MissingApiKey(key: ApiKey)

  /** The accessor that performs the guards: the derived ones map the Single of getWeather, getLocation or getActivity. */
  function GuardingAccessor(a: Accessor): (g: Accessor)
    ensures g in {GetWeather, GetLocation, GetActivity, HeadphonesPluggedIn, GetNearbyPlaces, GetBeaconsVarargs, GetBeaconsCollection}
    ensures a in {GetWeather, GetLocation, GetActivity, HeadphonesPluggedIn, GetNearbyPlaces, GetBeaconsVarargs, GetBeaconsCollection} ==> g == a
    ensures a in {GetTemperature, GetFeelsLikeTemperature, GetDewPoint, GetHumidity, GetWeatherConditions} ==> g == GetWeather
    ensures a in {GetLatLng, GetSpeed} ==> g == GetLocation
    ensures a in {GetMostProbableActivity, GetMostProbableActivityAtLeast, GetProbableActivities, GetProbableActivitiesAtLeast} ==> g == GetActivity
  {
    match a
    case GetTemperature | GetFeelsLikeTemperature | GetDewPoint | GetHumidity | GetWeatherConditions => GetWeather
    case GetLatLng | GetSpeed => GetLocation
    case GetMostProbableActivity | GetMostProbableActivityAtLeast | GetProbableActivities | GetProbableActivitiesAtLeast => GetActivity
    case _ => a
  }

  /** The Single an accessor builds, or maps, once its guards pass. */
  function SourceOf(a: Accessor): (src: SingleSource)
    ensures src == WeatherSingle <==> a in {GetWeather, GetTemperature, GetFeelsLikeTemperature, GetDewPoint, GetHumidity, GetWeatherConditions}
    ensures src == LocationSingle <==> a in {GetLocation, GetLatLng, GetSpeed}
    ensures src == ActivitySingle <==> a in {GetActivity, GetMostProbableActivity, GetMostProbableActivityAtLeast, GetProbableActivities, GetProbableActivitiesAtLeast}
    ensures src == HeadphoneSingle <==> a == HeadphonesPluggedIn
    ensures src == NearbySingle <==> a == GetNearbyPlaces
    ensures src == BeaconSingle <==> a in {GetBeaconsVarargs, GetBeaconsCollection}
  {
    match GuardingAccessor(a)
    case GetWeather => WeatherSingle
    case GetLocation => LocationSingle
    case GetActivity => ActivitySingle
    case HeadphonesPluggedIn => HeadphoneSingle
    case GetNearbyPlaces => NearbySingle
    case _ => BeaconSingle
  }

  /**
   * The keys an accessor guards, in call order. The Awareness key always comes
   * first; the Places key is checked only for the nearby places and the Beacon
   * key only for the beacons, each as the second and last check.
   */
  function RequiredKeys(a: Accessor): (keys: seq<ApiKey>)
    ensures 1 <= |keys| <= 2 && keys[0] == AwarenessApiKey
    ensures PlacesApiKey in keys <==> SourceOf(a) == NearbySingle
    ensures BeaconApiKey in keys <==> SourceOf(a) == BeaconSingle
    ensures |keys| == 2 <==> SourceOf(a) in {NearbySingle, BeaconSingle}
  {
    match GuardingAccessor(a)
    case GetNearbyPlaces => [AwarenessApiKey, PlacesApiKey]
    case GetBeaconsVarargs | GetBeaconsCollection => [AwarenessApiKey, BeaconApiKey]
    case _ => [AwarenessApiKey]
  }

  /** Runs `guardWithApiKey` for each key in order and reports the first one that is missing. */
  function FirstMissingKey(keys: seq<ApiKey>, present: ApiKey -> bool): (o: Option<ApiKey>)
    ensures o.None? <==> forall k :: k in keys ==> present(k)
    ensures o.Some? ==> exists i :: 0 <= i < |keys| && keys[i] == o.value && !present(keys[i])
                                   && forall j :: 0 <= j < i ==> present(keys[j])
  {
    if keys == [] then None
    else if !present(keys[0]) then Some(keys[0])
    else
      var rest := FirstMissingKey(keys[1..], present);
      assert forall j :: 1 <= j < |keys| ==> keys[j] == keys[1..][j - 1];
      rest
  }

  /**
   * An accessor call: every required key is checked before its Single is built,
   * so a missing key fails synchronously, and builds nothing.
   */
  function Invoke(a: Accessor, present: ApiKey -> bool): (c: Guarded)
    ensures c.MissingApiKey? <==> exists k :: k in RequiredKeys(a) && !present(k)
    ensures c.MissingApiKey? ==> c.key in RequiredKeys(a) && !present(c.key)
    ensures c.Built? ==> c.source == SourceOf(a)
  {
    match FirstMissingKey(RequiredKeys(a), present)
    case Some(k) => MissingApiKey(k)
    case None => Built(SourceOf(a))
  }

  /** The Awareness key is checked first: without it every accessor reports it, whatever else is missing. */
  lemma AwarenessCheckedFirst(a: Accessor, present: ApiKey -> bool)
    requires !present(AwarenessApiKey)
    ensures Invoke(a, present) == MissingApiKey(AwarenessApiKey)
  {
  }

  /** The whole outcome of an accessor's guards, in call order. */
  lemma GuardOutcome(a: Accessor, present: ApiKey -> bool)
    ensures Invoke(a, present) ==
      if !present(AwarenessApiKey) then MissingApiKey(AwarenessApiKey)
      else if |RequiredKeys(a)| == 2 && !present(RequiredKeys(a)[1]) then MissingApiKey(RequiredKeys(a)[1])
      else Built(SourceOf(a))
  {
    var keys := RequiredKeys(a);
    if present(AwarenessApiKey) && |keys| == 2 {
      assert keys[1..] == [keys[1]];
    }
  }

  /** A derived accessor fails or succeeds exactly as the accessor whose Single it maps. */
  lemma DerivedAccessorsGuardLikeTheirBase(a: Accessor, present: ApiKey -> bool)
    ensures Invoke(a, present) == Invoke(GuardingAccessor(a), present)
  {
  }
}
