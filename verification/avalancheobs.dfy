/** `AvalancheObs`: one observed avalanche. */
module AvalancheObservations {
  import opened Wrappers
  import opened Errors
  import opened Payload
  import opened ValueObjects

  datatype AvalancheType = DryLoose | WetLoose | DrySlab | WetSlab | Glide | SlushFlow | Cornice | Unknown {
    function Tid(): int {
      match this
      case DryLoose => 12
      case WetLoose => 11
      case DrySlab => 22
      case WetSlab => 21
      case Glide => 27
      case SlushFlow => 30
      case Cornice => 40
      case Unknown => 99
    }
  }

  datatype Trigger = Natural | Human | Snowmobile | Remote | TestSlope | Explosives | Unknown {
    function Tid(): int {
      match this
      case Natural => 10
      case Human => 26
      case Snowmobile => 27
      case Remote => 22
      case TestSlope => 23
      case Explosives => 25
      case Unknown => 99
    }
  }

  datatype Terrain =
    | SteepSlope | LeeSide | CloseToRidge | Gully | Slab | Bowl | Forest | LoggingArea
    | Everywhere | Unknown
  {
    function Tid(): int {
      match this
      case SteepSlope => 10
      case LeeSide => 20
      case CloseToRidge => 30
      case Gully => 40
      case Slab => 50
      case Bowl => 60
      case Forest => 70
      case LoggingArea => 75
      case Everywhere => 95
      case Unknown => 99
    }
  }

  datatype WeakLayer =
    | PP | SH | FcNearSurface | BondingAboveMfcr | DF | DH | FcBelowMfcr | FcAboveMfcr
    | WaterInSnow | GroundMelt | LooseSnow
  {
    function Tid(): int {
      match this
      case PP => 10
      case SH => 11
      case FcNearSurface => 13
      case BondingAboveMfcr => 14
      case DF => 15
      case DH => 16
      case FcBelowMfcr => 19
      case FcAboveMfcr => 18
      case WaterInSnow => 22
      case GroundMelt => 20
      case LooseSnow => 24
    }
  }

  // ---------------------------------------------------------------------------
  // Avalanche observation

  /** `AvalancheObs(...)`: never fails, since the release time is always
      given. A position contributes its latitude and longitude, and a single
      direction its exposition bit string. */
  function NewAvalancheObs(
    releaseTime: Timestamp,
    start: Option<Position>,
    stop: Option<Position>,
    exposition: Option<Direction>,
    size: Option<DestructiveSize>,
    avalancheType: Option<AvalancheType>,
    trigger: Option<Trigger>,
    terrain: Option<Terrain>,
    weakLayer: Option<WeakLayer>,
    fractureHeightCm: Option<int>,
    fractureWidth: Option<int>,
    pathName: Option<string>,
    comment: Option<string>
  ): (obs: Dict)
    ensures Carries(obs, DtAvalancheTime, Stamp(releaseTime))
    ensures Carries(obs, StartLat, if start.Some? then Real(start.value.lat) else Null)
    ensures Carries(obs, StartLong, if start.Some? then Real(start.value.lon) else Null)
    ensures Carries(obs, StopLat, if stop.Some? then Real(stop.value.lat) else Null)
    ensures Carries(obs, StopLong, if stop.Some? then Real(stop.value.lon) else Null)
    ensures Carries(obs, ValidExposition,
                    if exposition.Some? then Str(ExpositionBits([exposition.value])) else Null)
    ensures Carries(obs, FractureHeight, OptInt(fractureHeightCm))
    ensures forall k :: k in obs ==> !obs[k].Null?
  {
    var fields := map[
      AvalCauseTID := Code(weakLayer, (w: WeakLayer) => w.Tid()),
      AvalancheTID := Code(avalancheType, (t: AvalancheType) => t.Tid()),
      AvalancheTriggerTID := Code(trigger, (t: Trigger) => t.Tid()),
      Comment := OptStr(comment),
      DestructiveSizeTID := Code(size, (d: DestructiveSize) => d.Tid()),
      DtAvalancheTime := Stamp(releaseTime),
      FractureHeight := OptInt(fractureHeightCm),
      FractureWidth := OptInt(fractureWidth),
      StartLat := if start.Some? then Real(start.value.lat) else Null,
      StartLong := if start.Some? then Real(start.value.lon) else Null,
      StopLat := if stop.Some? then Real(stop.value.lat) else Null,
      StopLong := if stop.Some? then Real(stop.value.lon) else Null,
      TerrainStartZoneTID := Code(terrain, (t: Terrain) => t.Tid()),
      Trajectory := OptStr(pathName),
      ValidExposition := if exposition.Some? then Str(ExpositionBits([exposition.value])) else Null
    ];
    ObserveKeeps(fields, DtAvalancheTime);
    ObserveKeeps(fields, StartLat);
    ObserveKeeps(fields, StartLong);
    ObserveKeeps(fields, StopLat);
    ObserveKeeps(fields, StopLong);
    ObserveKeeps(fields, ValidExposition);
    ObserveKeeps(fields, FractureHeight);
    Observe(fields)
  }
}
