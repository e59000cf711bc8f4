/** `SnowCover`: the state of the snow cover at the observation site. */
module SnowCovers {
  import opened Wrappers
  import opened Errors
  import opened Payload
  import opened ValueObjects

  /** Drift; the member SOME is spelled `SomeDrift` here. */
  datatype Drift = NoDrift | SomeDrift | Moderate | Heavy {
    function Tid(): int {
      match this
      case NoDrift => 1
      case SomeDrift => 2
      case Moderate => 3
      case Heavy => 4
    }
  }

  datatype Surface =
    | LooseOver30Cm | Loose10To30Cm | Loose1To10Cm | SurfaceHoarHard | SurfaceHoarSoft
    | NewSurfaceFacets | Crust | WindSlabHard | StormSlabSoft | WetLoose | Other
  {
    function Tid(): int {
      match this
      case LooseOver30Cm => 101
      case Loose10To30Cm => 102
      case Loose1To10Cm => 103
      case SurfaceHoarHard => 61
      case SurfaceHoarSoft => 62
      case NewSurfaceFacets => 50
      case Crust => 107
      case WindSlabHard => 105
      case StormSlabSoft => 106
      case WetLoose => 104
      case Other => 108
    }
  }

  datatype Moisture = NoSnow | Dry | Moist | Wet | VeryWet | Slush {
    function Tid(): int {
      match this
      case NoSnow => 1
      case Dry => 2
      case Moist => 3
      case Wet => 4
      case VeryWet => 5
      case Slush => 6
    }
  }

  // ---------------------------------------------------------------------------
  // Snow cover

  /** `SnowCover(...)`: fails when every argument is missing; the new snow
      and snow depths are given in centimetres and exported in metres. */
  function NewSnowCover(
    drift: Option<Drift>,
    surface: Option<Surface>,
    moisture: Option<Moisture>,
    hn24Cm: Option<real>,
    newSnowLine: Option<int>,
    hsCm: Option<real>,
    snowLine: Option<int>,
    layeredSnowLine: Option<real>,
    comment: Option<string>
  ): (r: Result<Dict, Error>)
    ensures r.Failure? <==>
      && drift.None? && surface.None? && moisture.None? && hn24Cm.None? && newSnowLine.None?
      && hsCm.None? && snowLine.None? && layeredSnowLine.None? && comment.None?
    ensures r.Failure? ==> r.error == NoObservationError
    ensures r.Success? ==>
      r.value == SnowCoverFields(drift, surface, moisture, hn24Cm, newSnowLine, hsCm, snowLine,
                                 layeredSnowLine, comment)
  {
    if drift.None? && surface.None? && moisture.None? && hn24Cm.None? && newSnowLine.None?
       && hsCm.None? && snowLine.None? && layeredSnowLine.None? && comment.None? then
      Failure(NoObservationError)
    else
      Success(SnowCoverFields(drift, surface, moisture, hn24Cm, newSnowLine, hsCm, snowLine, layeredSnowLine, comment))
  }

  /** The exported dictionary of a snow cover observation: the depths in
      metres, the snow lines as given, and the codes given. */
  function SnowCoverFields(
    drift: Option<Drift>,
    surface: Option<Surface>,
    moisture: Option<Moisture>,
    hn24Cm: Option<real>,
    newSnowLine: Option<int>,
    hsCm: Option<real>,
    snowLine: Option<int>,
    layeredSnowLine: Option<real>,
    comment: Option<string>
  ): (obs: Dict)
    ensures NewSnowDepth24 in obs <==> hn24Cm.Some?
    ensures hn24Cm.Some? ==> obs[NewSnowDepth24].Real? && 100.0 * obs[NewSnowDepth24].x == hn24Cm.value
    ensures SnowDepth in obs <==> hsCm.Some?
    ensures hsCm.Some? ==> obs[SnowDepth].Real? && 100.0 * obs[SnowDepth].x == hsCm.value
    ensures Carries(obs, NewSnowLine, OptInt(newSnowLine))
    ensures Carries(obs, SnowLine, OptInt(snowLine))
    ensures Carries(obs, HeightLimitLayeredSnow, OptReal(layeredSnowLine))
    ensures forall k :: k in obs ==> !obs[k].Null?
  {
    var fields := map[
      Comment := OptStr(comment),
      HeightLimitLayeredSnow := OptReal(layeredSnowLine),
      NewSnowDepth24 := if hn24Cm.Some? then Real(hn24Cm.value / 100.0) else Null,
      NewSnowLine := OptInt(newSnowLine),
      SnowDepth := if hsCm.Some? then Real(hsCm.value / 100.0) else Null,
      SnowDriftTID := Code(drift, (d: Drift) => d.Tid()),
      SnowLine := OptInt(snowLine),
      SnowSurfaceTID := Code(surface, (s: Surface) => s.Tid()),
      SurfaceWaterContentTID := Code(moisture, (m: Moisture) => m.Tid())
    ];
    ObserveKeeps(fields, NewSnowDepth24);
    ObserveKeeps(fields, SnowDepth);
    ObserveKeeps(fields, NewSnowLine);
    ObserveKeeps(fields, SnowLine);
    ObserveKeeps(fields, HeightLimitLayeredSnow);
    Observe(fields)
  }
}
