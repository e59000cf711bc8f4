/** `Incident`: an avalanche incident and the links describing it. */
module Incidents {
  import opened Wrappers
  import opened Errors
  import opened Payload
  import opened ValueObjects

  datatype Activity =
    | Backcountry | OffPiste | Resort | Nordic | CrossCountry | Climbing | Foot
    | Snowmobile | Road | Railway | Building | Other
  {
    function Tid(): int {
      match this
      case Backcountry => 111
      case OffPiste => 113
      case Resort => 112
      case Nordic => 114
      case CrossCountry => 115
      case Climbing => 116
      case Foot => 117
      case Snowmobile => 130
      case Road => 120
      case Railway => 140
      case Building => 160
      case Other => 190
    }
  }

  datatype Extent =
    | NoEffect | Sar | Traffic | Evacuation | MaterialOnly | CloseCall | BurialUnharmed
    | PeopleHurt | Fatal | Other
  {
    function Tid(): int {
      match this
      case NoEffect => 10
      case Sar => 13
      case Traffic => 15
      case Evacuation => 25
      case MaterialOnly => 20
      case CloseCall => 27
      case BurialUnharmed => 28
      case PeopleHurt => 30
      case Fatal => 40
      case Other => 99
    }
  }

  /** `Incident(activity, extent, comment)`: fails when all three are
      missing; always starts with an empty list of links. */
  function NewIncident(activity: Option<Activity>, extent: Option<Extent>, comment: Option<string>): (r: Result<Dict, Error>)
    ensures r.Failure? <==> activity.None? && extent.None? && comment.None?
    ensures r.Failure? ==> r.error == NoObservationError
    ensures r.Success? ==> IncidentURLs in r.value && r.value[IncidentURLs] == Arr([])
    ensures r.Success? ==> Carries(r.value, ActivityInfluencedTID, Code(activity, (a: Activity) => a.Tid()))
    ensures r.Success? ==> Carries(r.value, DamageExtentTID, Code(extent, (e: Extent) => e.Tid()))
    ensures r.Success? ==> Carries(r.value, Comment, OptStr(comment))
    ensures r.Success? ==> forall k :: k in r.value ==>
      && !r.value[k].Null?
      && k in {ActivityInfluencedTID, Comment, DamageExtentTID, IncidentURLs}
  {
    if activity.None? && extent.None? && comment.None? then Failure(NoObservationError)
    else
      var fields := map[
        ActivityInfluencedTID := Code(activity, (a: Activity) => a.Tid()),
        Comment := OptStr(comment),
        DamageExtentTID := Code(extent, (e: Extent) => e.Tid()),
        IncidentURLs := Arr([])
      ];
      ObserveKeeps(fields, ActivityInfluencedTID);
      ObserveKeeps(fields, DamageExtentTID);
      ObserveKeeps(fields, Comment);
      ObserveKeeps(fields, IncidentURLs);
      Success(Observe(fields))
  }

  /** `Incident.add_url`: the link is appended to the incident's links and
      nothing else changes. */
  function IncidentAddUrl(obs: Dict, link: Dict): (r: Dict)
    requires IncidentURLs in obs && obs[IncidentURLs].Arr?
    ensures r.Keys == obs.Keys
    ensures r[IncidentURLs] == Arr(obs[IncidentURLs].items + [Obj(link)])
    ensures forall k :: k in obs && k != IncidentURLs ==> r[k] == obs[k]
  {
    AppendTo(obs, IncidentURLs, Obj(link))
  }
}
