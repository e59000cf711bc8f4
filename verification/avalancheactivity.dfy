/** `AvalancheActivity`: the avalanches released in a region during a
    window of one day. */
module AvalancheActivities {
  import opened Wrappers
  import opened Errors
  import opened Payload
  import opened ValueObjects

  datatype Timeframe = ZeroToSix | SixToTwelve | TwelveToEighteen | EighteenToTwentyFour {
    function Token(): string {
      match this
      case ZeroToSix => "0-6"
      case SixToTwelve => "6-12"
      case TwelveToEighteen => "12-18"
      case EighteenToTwentyFour => "18-24"
    }
  }

  datatype Quantity = NoActivity | One | Few | Several | Numerous {
    function Tid(): int {
      match this
      case NoActivity => 1
      case One => 2
      case Few => 3
      case Several => 4
      case Numerous => 5
    }
  }

  datatype ActivityType = DryLoose | WetLoose | DrySlab | WetSlab | Glide | SlushFlow | Cornice {
    function Tid(): int {
      match this
      case DryLoose => 10
      case WetLoose => 15
      case DrySlab => 20
      case WetSlab => 25
      case Glide => 27
      case SlushFlow => 30
      case Cornice => 40
    }
  }

  datatype Sensitivity = VeryDifficult | Difficult | Easy | VeryEasy | Spontaneous {
    function Tid(): int {
      match this
      case VeryDifficult => 30
      case Difficult => 40
      case Easy => 50
      case VeryEasy => 60
      case Spontaneous => 22
    }
  }

  datatype Distribution = Isolated | Specific | Widespread {
    function Tid(): int {
      match this
      case Isolated => 1
      case Specific => 2
      case Widespread => 3
    }
  }

  // ---------------------------------------------------------------------------
  // Avalanche activity

  /** The start and end clock times of a reporting window. */
  datatype Window = Window(start: ClockTime, end: ClockTime)

  /** Clock time `a` is earlier in the day than `b`. */
  predicate Before(a: ClockTime, b: ClockTime) {
    a.hour < b.hour || (a.hour == b.hour && a.minute < b.minute)
  }

  /** The timeframe table: a window of the day for each token, the whole day
      (00:00 to 23:59) when no timeframe is given. */
  function TimeframeTimes(timeframe: Option<Timeframe>): (w: Window)
    ensures Before(w.start, w.end)
    ensures w.start.hour >= 0 && w.end.hour <= 23
    ensures timeframe.Some? ==> w.end.hour - w.start.hour <= 6
  {
    if timeframe.None? then Window(ClockTime(0, 0), ClockTime(23, 59))
    else QuarterTimes(timeframe.value)
  }

  /** The rows of the timeframe table that belong to a token. */
  function QuarterTimes(timeframe: Timeframe): (w: Window)
    ensures Before(w.start, w.end)
    ensures w.start.hour >= 0 && w.end.hour <= 23
    ensures w.end.hour - w.start.hour <= 6
  {
    match timeframe
    case ZeroToSix => Window(ClockTime(0, 0), ClockTime(6, 0))
    case SixToTwelve => Window(ClockTime(6, 0), ClockTime(12, 0))
    case TwelveToEighteen => Window(ClockTime(12, 0), ClockTime(18, 0))
    case EighteenToTwentyFour => Window(ClockTime(18, 0), ClockTime(23, 59))
  }

  /** The four timeframes follow each other without gap or overlap and
      together span the window used when no timeframe is given. */
  lemma TimeframesTileTheDay()
    ensures TimeframeTimes(Some(ZeroToSix)).start == TimeframeTimes(None).start
    ensures TimeframeTimes(Some(ZeroToSix)).end == TimeframeTimes(Some(SixToTwelve)).start
    ensures TimeframeTimes(Some(SixToTwelve)).end == TimeframeTimes(Some(TwelveToEighteen)).start
    ensures TimeframeTimes(Some(TwelveToEighteen)).end == TimeframeTimes(Some(EighteenToTwentyFour)).start
    ensures TimeframeTimes(Some(EighteenToTwentyFour)).end == TimeframeTimes(None).end
    ensures TimeframeTimes(None) == Window(ClockTime(0, 0), ClockTime(23, 59))
    ensures TimeframeTimes(Some(SixToTwelve)) == Window(ClockTime(6, 0), ClockTime(12, 0))
    ensures TimeframeTimes(Some(TwelveToEighteen)).end == ClockTime(18, 0)
  {
  }

  /** `AvalancheActivity(...)`. The quantity itself is one of the attributes
      checked against NO_ACTIVITY, so reporting NO_ACTIVITY always fails.
      Otherwise the expositions are read without a check for `None`, so a
      missing `expositions` fails as well. */
  function NewAvalancheActivity(
    date: Date,
    timeframe: Option<Timeframe>,
    quantity: Option<Quantity>,
    avalancheType: Option<ActivityType>,
    sensitivity: Option<Sensitivity>,
    size: Option<DestructiveSize>,
    distribution: Option<Distribution>,
    elevation: Option<Elevation>,
    expositions: Option<Expositions>,
    comment: Option<string>
  ): (r: Result<Dict, Error>)
    ensures quantity == Some(NoActivity) ==> r == Failure(NoObservationError)
    ensures quantity != Some(NoActivity) && expositions.None? ==> r == Failure(AttributeError)
    ensures r.Success? <==> quantity != Some(NoActivity) && expositions.Some?
    ensures r.Success? ==>
      r.value == ActivityFields(date, timeframe, quantity, avalancheType, sensitivity, size,
                                distribution, elevation, expositions.value, comment)
  {
    var anyAttribute :=
      quantity.Some? || avalancheType.Some? || sensitivity.Some? || size.Some?
      || distribution.Some? || elevation.Some? || expositions.Some?;
    if quantity == Some(NoActivity) && anyAttribute then Failure(NoObservationError)
    else if expositions.None? then Failure(AttributeError)
    else
      Success(ActivityFields(date, timeframe, quantity, avalancheType, sensitivity, size,
                             distribution, elevation, expositions.value, comment))
  }

  /** The exported dictionary of an avalanche activity: the window of the
      timeframe on the given date, the exposition bits, the codes given, and
      the elevation's entries merged in. */
  function ActivityFields(
    date: Date,
    timeframe: Option<Timeframe>,
    quantity: Option<Quantity>,
    avalancheType: Option<ActivityType>,
    sensitivity: Option<Sensitivity>,
    size: Option<DestructiveSize>,
    distribution: Option<Distribution>,
    elevation: Option<Elevation>,
    expositions: Expositions,
    comment: Option<string>
  ): (obs: Dict)
    ensures
      var w := TimeframeTimes(timeframe);
      && Carries(obs, DtStart, Stamp(Timestamp(date, w.start)))
      && Carries(obs, DtEnd, Stamp(Timestamp(date, w.end)))
    ensures Carries(obs, ValidExposition, Str(expositions.exp))
    ensures Carries(obs, EstimatedNumTID, Code(quantity, (q: Quantity) => q.Tid()))
    ensures Carries(obs, AvalancheExtTID, Code(avalancheType, (t: ActivityType) => t.Tid()))
    ensures Carries(obs, ExposedHeight1, if elevation.Some? then Int(elevation.value.height1) else Null)
    ensures Carries(obs, ExposedHeight2, if elevation.Some? then OptInt(elevation.value.height2) else Null)
    ensures forall k :: k in obs ==> !obs[k].Null?
  {
    var w := TimeframeTimes(timeframe);
    var fields := map[
      AvalPropagationTID := Code(distribution, (d: Distribution) => d.Tid()),
      AvalTriggerSimpleTID := Code(sensitivity, (s: Sensitivity) => s.Tid()),
      AvalancheExtTID := Code(avalancheType, (t: ActivityType) => t.Tid()),
      Comment := OptStr(comment),
      DestructiveSizeTID := Code(size, (d: DestructiveSize) => d.Tid()),
      DtEnd := Stamp(Timestamp(date, w.end)),
      DtStart := Stamp(Timestamp(date, w.start)),
      EstimatedNumTID := Code(quantity, (q: Quantity) => q.Tid()),
      ValidExposition := Str(expositions.exp),
      // `{**obs, **elevation.elev}`: the elevation's keys are disjoint from
      // the others, and a missing elevation contributes nothing
      ExposedHeightComboTID := if elevation.Some? then Int(elevation.value.format.Tid()) else Null,
      ExposedHeight1 := if elevation.Some? then Int(elevation.value.height1) else Null,
      ExposedHeight2 := if elevation.Some? then OptInt(elevation.value.height2) else Null
    ];
    ObserveKeeps(fields, DtStart);
    ObserveKeeps(fields, DtEnd);
    ObserveKeeps(fields, ValidExposition);
    ObserveKeeps(fields, EstimatedNumTID);
    ObserveKeeps(fields, AvalancheExtTID);
    ObserveKeeps(fields, ExposedHeight1);
    ObserveKeeps(fields, ExposedHeight2);
    Observe(fields)
  }
}
