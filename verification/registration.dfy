/** `SnowRegistration`: the record a registration is built in, its top-level
    dictionary, and the pure part of `Connection.submit`. */
module Registrations {
  import opened Wrappers
  import opened Errors
  import opened Payload
  import opened ValueObjects

  datatype Source = Seen | Told | News | Picture | Assumed {
    function Tid(): int {
      match this
      case Seen => 10
      case Told => 20
      case News => 21
      case Picture => 22
      case Assumed => 23
    }
  }

  datatype SpatialPrecision = Exact | OneHundred | FiveHundred | OneKm | OverKm {
    function Tid(): int {
      match this
      case Exact => 0
      case OneHundred => 100
      case FiveHundred => 500
      case OneKm => 1000
      case OverKm => -1
    }
  }

  /** The state of a `SnowRegistration`: the `any_obs` flag, the values
      fixed at construction, and the slots the add/set methods fill. Every
      other top-level entry of the dictionary is a constant. */
  datatype Registration = Registration(
    anyObs: bool,
    obsTime: Timestamp,
    position: Position,
    precision: Option<SpatialPrecision>,
    source: Option<Source>,
    dangerObs: seq<Dict>,
    avalancheObs: Option<Dict>,
    avalancheActivity: seq<Dict>,
    weather: Option<Dict>,
    snowCover: Option<Dict>,
    incident: Option<Dict>,
    note: Option<Dict>)

  /** The seventeen keys of the top-level dictionary. */
  const TopLevelKeys: set<Key> := {
    AttachmentSummaries, Attachments, AvalancheActivityObs2, AvalancheEvalProblem2,
    AvalancheEvaluation3, AvalancheObs, CompressionTest, DangerObs, DtObsTime,
    GeneralObservation, GeoHazardTID, Incident, ObsLocation, SourceTID,
    SnowProfile2, SnowSurfaceObservation, WeatherObservation
  }

  /** A list of observation dictionaries as a JSON list. */
  function Objs(ds: seq<Dict>): (v: seq<Value>)
    ensures |v| == |ds|
    ensures forall i :: 0 <= i < |ds| ==> v[i] == Obj(ds[i])
  {
    seq(|ds|, i requires 0 <= i < |ds| => Obj(ds[i]))
  }

  lemma ObjsAppend(ds: seq<Dict>, d: Dict)
    ensures Objs(ds + [d]) == Objs(ds) + [Obj(d)]
  {
  }

  function OptObj(o: Option<Dict>): (v: Value)
    ensures v.Null? <==> o.None?
    ensures o.Some? ==> v == Obj(o.value)
  {
    if o.Some? then Obj(o.value) else Null
  }

  /** The location entry; its uncertainty stays `None` when no precision was
      given, since this dictionary is not an `Observation`. */
  function Location(p: Position, precision: Option<SpatialPrecision>): Dict {
    map[
      Latitude := Real(p.lat),
      Longitude := Real(p.lon),
      Uncertainty := Code(precision, (s: SpatialPrecision) => s.Tid())
    ]
  }

  /** `self.reg[k]` for a top-level key `k`. */
  function Slot(r: Registration, k: Key): Value
    requires k in TopLevelKeys
  {
    match k
    case AttachmentSummaries => Arr([])
    case Attachments => Arr([])
    case AvalancheActivityObs2 => Arr(Objs(r.avalancheActivity))
    case AvalancheEvalProblem2 => Arr([])
    case AvalancheEvaluation3 => Null
    case AvalancheObs => OptObj(r.avalancheObs)
    case CompressionTest => Arr([])
    case DangerObs => Arr(Objs(r.dangerObs))
    case DtObsTime => Stamp(r.obsTime)
    case GeneralObservation => OptObj(r.note)
    case GeoHazardTID => Int(10)
    case Incident => OptObj(r.incident)
    case ObsLocation => Obj(Location(r.position, r.precision))
    case SourceTID => Code(r.source, (s: Source) => s.Tid())
    case SnowProfile2 => Null
    case SnowSurfaceObservation => OptObj(r.snowCover)
    case WeatherObservation => OptObj(r.weather)
  }

  /** `self.reg`: the top-level dictionary of a registration. */
  function Reg(r: Registration): (d: Dict)
    ensures d.Keys == TopLevelKeys
    ensures forall k :: k in d ==> d[k] == Slot(r, k)
  {
    map k | k in TopLevelKeys :: Slot(r, k)
  }

  /** Some observation has been added or set. */
  predicate HasObservation(r: Registration) {
    || |r.dangerObs| > 0 || r.avalancheObs.Some? || |r.avalancheActivity| > 0
    || r.weather.Some? || r.snowCover.Some? || r.incident.Some? || r.note.Some?
  }

  /** `any_obs` records exactly whether some observation has been added. */
  predicate Consistent(r: Registration) {
    r.anyObs <==> HasObservation(r)
  }

  /** `SnowRegistration(obs_time, position, spatial_precision, source)`: no
      observation yet, empty lists, hazard 10 (snow), and the location. */
  function NewRegistration(
    obsTime: Timestamp,
    position: Position,
    precision: Option<SpatialPrecision>,
    source: Option<Source>
  ): (r: Registration)
    ensures !r.anyObs && Consistent(r)
    ensures Slot(r, DangerObs) == Arr([]) && Slot(r, AvalancheActivityObs2) == Arr([])
    ensures forall k :: k in {AvalancheObs, WeatherObservation, SnowSurfaceObservation, Incident, GeneralObservation} ==> Slot(r, k) == Null
    ensures Slot(r, GeoHazardTID) == Int(10) && Slot(r, DtObsTime) == Stamp(obsTime)
    ensures Slot(r, ObsLocation).Obj? && Slot(r, ObsLocation).fields[Latitude] == Real(position.lat)
    ensures Slot(r, ObsLocation).fields[Longitude] == Real(position.lon)
    ensures Slot(r, ObsLocation) == Obj(Location(position, precision))
    ensures Slot(r, SourceTID) == Code(source, (s: Source) => s.Tid())
  {
    Registration(false, obsTime, position, precision, source, [], None, [], None, None, None, None)
  }

  // ---------------------------------------------------------------------------
  // add_* and set_*: one slot changes and `any_obs` becomes true

  /** `add_danger_sign`: the danger sign is appended to `DangerObs`. */
  function AddDangerSign(r: Registration, obs: Dict): (r': Registration)
    ensures r'.anyObs
    ensures Slot(r', DangerObs) == Arr(Slot(r, DangerObs).items + [Obj(obs)])
    ensures forall k :: k in TopLevelKeys && k != DangerObs ==> Slot(r', k) == Slot(r, k)
    ensures Consistent(r) ==> Consistent(r')
  {
    ObjsAppend(r.dangerObs, obs);
    r.(anyObs := true, dangerObs := r.dangerObs + [obs])
  }

  /** `set_avalanche_obs`: the avalanche observation replaces `AvalancheObs`. */
  function SetAvalancheObs(r: Registration, obs: Dict): (r': Registration)
    ensures r'.anyObs
    ensures Slot(r', AvalancheObs) == Obj(obs)
    ensures forall k :: k in TopLevelKeys && k != AvalancheObs ==> Slot(r', k) == Slot(r, k)
    ensures Consistent(r) ==> Consistent(r')
  {
    r.(anyObs := true, avalancheObs := Some(obs))
  }

  /** `add_avalanche_activity`: the activity is appended to `AvalancheActivityObs2`. */
  function AddAvalancheActivity(r: Registration, obs: Dict): (r': Registration)
    ensures r'.anyObs
    ensures Slot(r', AvalancheActivityObs2) == Arr(Slot(r, AvalancheActivityObs2).items + [Obj(obs)])
    ensures forall k :: k in TopLevelKeys && k != AvalancheActivityObs2 ==> Slot(r', k) == Slot(r, k)
    ensures Consistent(r) ==> Consistent(r')
  {
    ObjsAppend(r.avalancheActivity, obs);
    r.(anyObs := true, avalancheActivity := r.avalancheActivity + [obs])
  }

  /** `set_weather`: the weather replaces `WeatherObservation`. */
  function SetWeather(r: Registration, obs: Dict): (r': Registration)
    ensures r'.anyObs
    ensures Slot(r', WeatherObservation) == Obj(obs)
    ensures forall k :: k in TopLevelKeys && k != WeatherObservation ==> Slot(r', k) == Slot(r, k)
    ensures Consistent(r) ==> Consistent(r')
  {
    r.(anyObs := true, weather := Some(obs))
  }

  /** `set_snow_cover`: the snow cover replaces `SnowSurfaceObservation`. */
  function SetSnowCover(r: Registration, obs: Dict): (r': Registration)
    ensures r'.anyObs
    ensures Slot(r', SnowSurfaceObservation) == Obj(obs)
    ensures forall k :: k in TopLevelKeys && k != SnowSurfaceObservation ==> Slot(r', k) == Slot(r, k)
    ensures Consistent(r) ==> Consistent(r')
  {
    r.(anyObs := true, snowCover := Some(obs))
  }

  /** `set_incident`: the incident replaces `Incident`. */
  function SetIncident(r: Registration, obs: Dict): (r': Registration)
    ensures r'.anyObs
    ensures Slot(r', Incident) == Obj(obs)
    ensures forall k :: k in TopLevelKeys && k != Incident ==> Slot(r', k) == Slot(r, k)
    ensures Consistent(r) ==> Consistent(r')
  {
    r.(anyObs := true, incident := Some(obs))
  }

  /** `set_note`: the note replaces `GeneralObservation`. */
  function SetNote(r: Registration, obs: Dict): (r': Registration)
    ensures r'.anyObs
    ensures Slot(r', GeneralObservation) == Obj(obs)
    ensures forall k :: k in TopLevelKeys && k != GeneralObservation ==> Slot(r', k) == Slot(r, k)
    ensures Consistent(r) ==> Consistent(r')
  {
    r.(anyObs := true, note := Some(obs))
  }

  // ---------------------------------------------------------------------------
  // submit

  /** The payload `Connection.submit` posts: it refuses a registration
      without observations, and otherwise drops the top-level entries that
      are falsy (`None`, empty lists). */
  function SubmitPayload(r: Registration): (res: Result<Dict, Error>)
    ensures res.Failure? <==> !r.anyObs
    ensures res.Failure? ==> res.error == NoObservationError
    ensures res.Success? ==> forall k :: k in res.value <==> k in TopLevelKeys && Truthy(Slot(r, k))
    ensures res.Success? ==> forall k :: k in res.value ==> res.value[k] == Slot(r, k)
  {
    if !r.anyObs then Failure(NoObservationError)
    else Success(Filter(Reg(r), Truthy))
  }

  /** For a registration built through the constructor and the add/set
      functions, submitting fails exactly when no observation was added. */
  lemma SubmitRefusesEmpty(r: Registration)
    requires Consistent(r)
    ensures SubmitPayload(r).Failure? <==> !HasObservation(r)
  {
  }

  /** The keys posted for a registration whose only observation is one
      danger sign: the danger sign list, the observation time, the hazard and
      the location, plus the source when one was given. */
  function OneDangerSignKeys(source: Option<Source>): set<Key> {
    {DangerObs, DtObsTime, GeoHazardTID, ObsLocation} + (if source.Some? then {SourceTID} else {})
  }

  /** Holding a single danger sign and no other observation. */
  predicate OnlyOneDangerSign(r: Registration, sign: Dict) {
    && r.anyObs && r.dangerObs == [sign]
    && r.avalancheObs.None? && r.avalancheActivity == [] && r.weather.None?
    && r.snowCover.None? && r.incident.None? && r.note.None?
  }

  /** A fresh registration with one danger sign added holds only that sign. */
  lemma FreshWithDangerSign(
    obsTime: Timestamp,
    position: Position,
    precision: Option<SpatialPrecision>,
    source: Option<Source>,
    sign: Dict
  )
    ensures
      var r := AddDangerSign(NewRegistration(obsTime, position, precision, source), sign);
      OnlyOneDangerSign(r, sign) && r.source == source
  {
    assert [] + [sign] == [sign];
  }

  /** Such a registration posts exactly the keys above: the empty lists and
      the `None` slots are dropped. */
  lemma OneDangerSignPayload(r: Registration, sign: Dict)
    requires OnlyOneDangerSign(r, sign)
    ensures SubmitPayload(r).Success?
    ensures SubmitPayload(r).value.Keys == OneDangerSignKeys(r.source)
  {
    OneDangerSignSlots(r, sign);
    var res := SubmitPayload(r);
    forall k
      ensures k in res.value <==> k in OneDangerSignKeys(r.source)
    {
    }
  }

  /** ... and the danger sign list it posts holds exactly the sign. */
  lemma OneDangerSignPosted(r: Registration, sign: Dict)
    requires OnlyOneDangerSign(r, sign)
    ensures SubmitPayload(r).Success?
    ensures DangerObs in SubmitPayload(r).value
    ensures SubmitPayload(r).value[DangerObs] == Arr([Obj(sign)])
  {
    assert Objs(r.dangerObs) == [Obj(sign)];
    assert Slot(r, DangerObs) == Arr([Obj(sign)]);
    assert Truthy(Slot(r, DangerObs));
  }

  lemma OneDangerSignSlots(r: Registration, sign: Dict)
    requires OnlyOneDangerSign(r, sign)
    ensures forall k :: k in TopLevelKeys ==> (Truthy(Slot(r, k)) <==> k in OneDangerSignKeys(r.source))
  {
    forall k | k in TopLevelKeys
      ensures Truthy(Slot(r, k)) <==> k in OneDangerSignKeys(r.source)
    {
      OneDangerSignSlot(r, sign, k);
    }
  }

  lemma OneDangerSignSlot(r: Registration, sign: Dict, k: Key)
    requires OnlyOneDangerSign(r, sign) && k in TopLevelKeys
    ensures Truthy(Slot(r, k)) <==> k in OneDangerSignKeys(r.source)
  {
    if k in OneDangerSignKeys(r.source) {
      PostedSlot(r, sign, k);
    } else {
      DroppedSlot(r, sign, k);
    }
  }

  /** Each posted key holds a truthy value ... */
  lemma PostedSlot(r: Registration, sign: Dict, k: Key)
    requires OnlyOneDangerSign(r, sign) && k in OneDangerSignKeys(r.source)
    ensures k in TopLevelKeys && Truthy(Slot(r, k))
  {
    PostedSlots(r, sign);
  }

  lemma PostedSlots(r: Registration, sign: Dict)
    requires OnlyOneDangerSign(r, sign)
    ensures Truthy(Slot(r, DangerObs)) && Truthy(Slot(r, DtObsTime)) && Truthy(Slot(r, GeoHazardTID))
    ensures Truthy(Slot(r, ObsLocation))
    ensures r.source.Some? ==> Truthy(Slot(r, SourceTID))
  {
    assert Objs(r.dangerObs) == [Obj(sign)];
    assert Latitude in Location(r.position, r.precision);
    assert r.source.Some? ==> r.source.value.Tid() != 0;
  }

  /** ... and every other top-level key an empty list or `None`. */
  lemma DroppedSlot(r: Registration, sign: Dict, k: Key)
    requires OnlyOneDangerSign(r, sign) && k in TopLevelKeys && k !in OneDangerSignKeys(r.source)
    ensures !Truthy(Slot(r, k))
  {
    match k
    case AttachmentSummaries =>
    case Attachments =>
    case AvalancheActivityObs2 =>
    case AvalancheEvalProblem2 =>
    case AvalancheEvaluation3 =>
    case AvalancheObs =>
    case CompressionTest =>
    case GeneralObservation =>
    case Incident =>
    case SnowProfile2 =>
    case SnowSurfaceObservation =>
    case WeatherObservation =>
    case SourceTID =>
    case _ =>
      assert false;
  }
}
