/** `Weather`: the weather at the observation site. */
module WeatherObservations {
  import opened Wrappers
  import opened Errors
  import opened Payload
  import opened ValueObjects

  datatype Precipitation = NoPrecipitation | Drizzle | Rain | Sleet | Snow | Hail | FreezingRain {
    function Tid(): int {
      match this
      case NoPrecipitation => 1
      case Drizzle => 2
      case Rain => 3
      case Sleet => 4
      case Snow => 5
      case Hail => 6
      case FreezingRain => 8
    }
  }

  // ---------------------------------------------------------------------------
  // Weather

  /** `Weather(...)`: fails when every argument is missing, then when the
      cloud cover is not a percentage; the wind direction is exported in
      degrees, 45 per octant. */
  function NewWeather(
    precipitation: Option<Precipitation>,
    windDir: Option<Direction>,
    airTemp: Option<real>,
    windSpeed: Option<real>,
    cloudCover: Option<int>,
    comment: Option<string>
  ): (r: Result<Dict, Error>)
    ensures r.Failure? <==>
      || (precipitation.None? && airTemp.None? && windSpeed.None? && cloudCover.None?
          && windDir.None? && comment.None?)
      || (cloudCover.Some? && !(0 <= cloudCover.value <= 100))
    ensures r.Failure? ==>
      r.error == (if cloudCover.None? then NoObservationError else PercentError)
    ensures r.Success? ==>
      Carries(r.value, WindDirection, if windDir.Some? then Int(45 * windDir.value.Index()) else Null)
    ensures r.Success? ==> Carries(r.value, CloudCover, OptInt(cloudCover))
    ensures r.Success? ==> Carries(r.value, AirTemperature, OptReal(airTemp))
    ensures r.Success? ==> Carries(r.value, WindSpeed, OptReal(windSpeed))
    ensures r.Success? ==> Carries(r.value, PrecipitationTID, Code(precipitation, (p: Precipitation) => p.Tid()))
    ensures r.Success? ==> Carries(r.value, Comment, OptStr(comment))
    ensures r.Success? ==> forall k :: k in r.value ==>
      && !r.value[k].Null?
      && k in {AirTemperature, CloudCover, Comment, PrecipitationTID, WindDirection, WindSpeed}
  {
    if precipitation.None? && airTemp.None? && windSpeed.None? && cloudCover.None?
       && windDir.None? && comment.None? then
      Failure(NoObservationError)
    else if cloudCover.Some? && !(0 <= cloudCover.value <= 100) then
      Failure(PercentError)
    else
      var fields := map[
        AirTemperature := OptReal(airTemp),
        CloudCover := OptInt(cloudCover),
        Comment := OptStr(comment),
        PrecipitationTID := Code(precipitation, (p: Precipitation) => p.Tid()),
        WindDirection := if windDir.Some? then Int(45 * windDir.value.Index()) else Null,
        WindSpeed := OptReal(windSpeed)
      ];
      ObserveKeeps(fields, WindDirection);
      ObserveKeeps(fields, CloudCover);
      ObserveKeeps(fields, AirTemperature);
      ObserveKeeps(fields, WindSpeed);
      ObserveKeeps(fields, PrecipitationTID);
      ObserveKeeps(fields, Comment);
      Success(Observe(fields))
  }
}
