/** `DangerSign`: a sign of avalanche danger seen in the field. */
module DangerSigns {
  import opened Wrappers
  import opened Errors
  import opened Payload
  import opened ValueObjects

  datatype Sign =
    | NoSigns | RecentAvalanches | WhumpfSound | RecentCracks | LargeSnowfall
    | QuickTempChange | WaterInSnow | RecentSnowdrift | Other
  {
    function Tid(): int {
      match this
      case NoSigns => 1
      case RecentAvalanches => 2
      case WhumpfSound => 3
      case RecentCracks => 4
      case LargeSnowfall => 5
      case QuickTempChange => 7
      case WaterInSnow => 8
      case RecentSnowdrift => 9
      case Other => 99
    }
  }

  // ---------------------------------------------------------------------------
  // Danger sign

  /** `DangerSign(sign, comment)`: fails when both are missing; a missing
      sign is exported as code 0, which, not being `None`, is kept. */
  function NewDangerSign(sign: Option<Sign>, comment: Option<string>): (r: Result<Dict, Error>)
    ensures r.Failure? <==> sign.None? && comment.None?
    ensures r.Failure? ==> r.error == NoObservationError
    ensures r.Success? ==> Carries(r.value, DangerSignTID, Int(if sign.Some? then sign.value.Tid() else 0))
    ensures r.Success? ==> Carries(r.value, Comment, OptStr(comment))
    ensures r.Success? ==> forall k :: k in r.value ==> !r.value[k].Null? && k in {DangerSignTID, Comment}
  {
    if sign.None? && comment.None? then Failure(NoObservationError)
    else
      var fields := map[
        DangerSignTID := Int(if sign.Some? then sign.value.Tid() else 0),
        Comment := OptStr(comment)
      ];
      ObserveKeeps(fields, DangerSignTID);
      ObserveKeeps(fields, Comment);
      Success(Observe(fields))
  }
}
