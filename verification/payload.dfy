/** The JSON dictionaries the observation client builds: keys, values, the
    `None`-stripping of `Observation` and the falsy-value filter of `submit`. */
module Payload {
  import opened Wrappers

  /** Every dictionary key the client writes; the constructor is the key's
      text on the wire. */
  datatype Key =
    // top level of a registration
    | AttachmentSummaries | Attachments | AvalancheActivityObs2 | AvalancheEvalProblem2
    | AvalancheEvaluation3 | AvalancheObs | CompressionTest | DangerObs | DtObsTime
    | GeneralObservation | GeoHazardTID | Incident | ObsLocation | SourceTID
    | SnowProfile2 | SnowSurfaceObservation | WeatherObservation
    // location
    | Latitude | Longitude | Uncertainty
    // shared by several observations
    | Comment | DestructiveSizeTID | ValidExposition
    // danger sign
    | DangerSignTID
    // avalanche observation
    | AvalCauseTID | AvalancheTID | AvalancheTriggerTID | DtAvalancheTime
    | FractureHeight | FractureWidth | StartLat | StartLong | StopLat | StopLong
    | TerrainStartZoneTID | Trajectory
    // avalanche activity and elevation
    | AvalPropagationTID | AvalTriggerSimpleTID | AvalancheExtTID | DtEnd | DtStart
    | EstimatedNumTID | ExposedHeightComboTID | ExposedHeight1 | ExposedHeight2
    // weather
    | AirTemperature | CloudCover | PrecipitationTID | WindDirection | WindSpeed
    // snow cover
    | HeightLimitLayeredSnow | NewSnowDepth24 | NewSnowLine | SnowDepth | SnowDriftTID
    | SnowLine | SnowSurfaceTID | SurfaceWaterContentTID
    // incident and note
    | ActivityInfluencedTID | DamageExtentTID | IncidentURLs | ObsComment | Urls
    // link
    | UrlDescription | UrlLine

  datatype Date = Date(year: int, month: int, day: int)

  datatype ClockTime = ClockTime(hour: int, minute: int)

  /** A point in civil time; its ISO rendering is library formatting and is
      kept opaque. */
  datatype Timestamp = Timestamp(date: Date, time: ClockTime)

  /** A JSON value. `Stamp` stands for the (never empty) text that
      `datetime.isoformat()` produces. */
  datatype Value =
    | Null
    | Int(i: int)
    | Real(x: real)
    | Str(s: string)
    | Stamp(t: Timestamp)
    | Arr(items: seq<Value>)
    | Obj(fields: map<Key, Value>)

  /** A Python dictionary with keys from `Key`. Only lookups are modelled:
      the insertion order shows up only in the JSON text, which is not. */
  type Dict = map<Key, Value>

  /** Python truthiness of a value. */
  predicate Truthy(v: Value) {
    match v
    case Null => false
    case Int(i) => i != 0
    case Real(x) => x != 0.0
    case Str(s) => |s| > 0
    case Stamp(_) => true
    case Arr(items) => |items| > 0
    case Obj(fields) => |fields| > 0
  }

  predicate NotNull(v: Value) {
    !v.Null?
  }

  function OptInt(o: Option<int>): Value {
    if o.Some? then Int(o.value) else Null
  }

  function OptReal(o: Option<real>): Value {
    if o.Some? then Real(o.value) else Null
  }

  function OptStr(o: Option<string>): Value {
    if o.Some? then Str(o.value) else Null
  }

  /** The entries of a dictionary whose value passes `keep`:
      `{k: v for k, v in d.items() if keep(v)}`. */
  function Filter(d: Dict, keep: Value -> bool): (r: Dict)
    ensures forall k :: k in r <==> k in d && keep(d[k])
    ensures forall k :: k in r ==> r[k] == d[k]
  {
    map k | k in d && keep(d[k]) :: d[k]
  }

  /** Filtering never adds entries, and keeps a dictionary whose values all
      pass unchanged. */
  lemma FilterShrinks(d: Dict, keep: Value -> bool)
    ensures |Filter(d, keep)| <= |d|
    ensures (forall k :: k in d ==> keep(d[k])) ==> Filter(d, keep) == d
  {
    var r := Filter(d, keep);
    assert r.Keys <= d.Keys;
    LemmaSubsetCardinality(r.Keys, d.Keys);
  }

  lemma LemmaSubsetCardinality(a: set<Key>, b: set<Key>)
    requires a <= b
    ensures |a| <= |b|
  {
    if a != {} {
      var x :| x in a;
      LemmaSubsetCardinality(a - {x}, b - {x});
    }
  }

  /** Python's `Observation.__init__`: drop the entries whose value is `None`. */
  function Observe(d: Dict): (r: Dict)
    ensures forall k :: k in r <==> k in d && !d[k].Null?
    ensures forall k :: k in r ==> r[k] == d[k]
  {
    map k | k in d && !d[k].Null? :: d[k]
  }

  /** After dropping `None` entries, the dictionary holds `v` under `k` when
      `v` is not `None`, and lacks `k` when it is. */
  predicate Carries(d: Dict, k: Key, v: Value) {
    && (k in d <==> !v.Null?)
    && (k in d ==> d[k] == v)
  }

  /** `d[k].append(item)` where `d[k]` is a list: the list under `k` grows by
      `item` at its end and every other entry stays as it was. */
  function AppendTo(d: Dict, k: Key, item: Value): (r: Dict)
    requires k in d && d[k].Arr?
    ensures r.Keys == d.Keys
    ensures r[k] == Arr(d[k].items + [item])
    ensures forall k' :: k' in d && k' != k ==> r[k'] == d[k']
  {
    d[k := Arr(d[k].items + [item])]
  }

  /** An entry of the dictionary given to `Observe` is carried over as it is,
      or dropped if it is `None`. */
  lemma ObserveKeeps(d: Dict, k: Key)
    requires k in d
    ensures Carries(Observe(d), k, d[k])
  {
  }

  /** An optional enumeration member as a dictionary value: its code, or `None`. */
  function Code<T>(o: Option<T>, tid: T -> int): (v: Value)
    ensures v.Null? <==> o.None?
    ensures o.Some? ==> v == Int(tid(o.value))
  {
    if o.Some? then Int(tid(o.value)) else Null
  }
}
