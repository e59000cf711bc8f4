/** The validated value objects of the observation client: positions,
    elevations, exposition bit strings and the enumerations they use. */
module ValueObjects {
  import opened Wrappers
  import opened Errors

  /** The eight compass octants; `Index` is the enumeration value. */
  datatype Direction = N | NE | E | SE | S | SW | W | NW {
    function Index(): nat {
      match this
      case N => 0
      case NE => 1
      case E => 2
      case SE => 3
      case S => 4
      case SW => 5
      case W => 6
      case NW => 7
    }
  }

  datatype DestructiveSize = D1 | D2 | D3 | D4 | D5 | Unknown {
    function Tid(): int {
      match this
      case D1 => 1
      case D2 => 2
      case D3 => 3
      case D4 => 4
      case D5 => 5
      case Unknown => 9
    }
  }

  // ---------------------------------------------------------------------------
  // Position

  /** A latitude/longitude pair in degrees. */
  datatype Position = Position(lat: real, lon: real)

  /** `Position(lat, lon)`: both coordinates must lie in their ranges, bounds
      included; the values are kept unchanged. */
  function NewPosition(lat: real, lon: real): (r: Result<Position, Error>)
    ensures r.Success? <==> -90.0 <= lat <= 90.0 && -180.0 <= lon <= 180.0
    ensures r.Success? ==> r.value.lat == lat && r.value.lon == lon
    ensures r.Failure? ==> r.error == SpatialError
  {
    if !(-90.0 <= lat <= 90.0) || !(-180.0 <= lon <= 180.0) then Failure(SpatialError)
    else Success(Position(lat, lon))
  }

  // ---------------------------------------------------------------------------
  // Elevation

  datatype ElevationFormat = Above | Below | Sandwich | Middle {
    function Tid(): int {
      match this
      case Above => 1
      case Below => 2
      case Sandwich => 3
      case Middle => 4
    }
  }

  /** The exported `elev` dictionary of an `Elevation`: the format and the two
      exposed heights, the second one absent for a single elevation. */
  datatype Elevation = Elevation(format: ElevationFormat, height1: int, height2: Option<int>)

  /** Python's `round(x, -2)` on an integer: the nearest multiple of 100, a
      tie going to the even multiple. */
  function RoundHundreds(x: int): (r: int)
    ensures r % 100 == 0
    ensures x - 50 <= r <= x + 50
    ensures (r == x - 50 || r == x + 50) ==> (r / 100) % 2 == 0
  {
    var q := x / 100;
    var rem := x % 100;
    if rem < 50 then q * 100
    else if rem > 50 then (q + 1) * 100
    else if q % 2 == 0 then q * 100
    else (q + 1) * 100
  }

  /** Rounding to hundreds never reverses the order of two values. */
  lemma RoundHundredsMonotone(x: int, y: int)
    requires x <= y
    ensures RoundHundreds(x) <= RoundHundreds(y)
  {
  }

  predicate InElevationRange(h: int) {
    0 <= h <= 2500
  }

  /** `Elevation(elev_fmt, elev, elev_secondary)`. Both elevations must be in
      range; ABOVE and BELOW take no secondary value, SANDWICH and MIDDLE need
      one. With a secondary value both exported heights are multiples of 100
      and the second lies strictly below the first. The first height is
      `round(max(elev, elev), -2)` in the code, so it rounds `elev` alone,
      whatever the secondary value is. */
  function NewElevation(format: ElevationFormat, elev: int, secondary: Option<int>): (r: Result<Elevation, Error>)
    ensures r.Failure? <==>
      || !InElevationRange(elev)
      || (secondary.Some? && !InElevationRange(secondary.value))
      || ((format == Above || format == Below) && secondary.Some?)
      || ((format == Sandwich || format == Middle) && secondary.None?)
    ensures r.Failure? ==> r.error == ElevationError
    ensures r.Success? ==> r.value.format == format
    ensures r.Success? && secondary.None? ==> r.value.height1 == elev && r.value.height2.None?
    ensures r.Success? && secondary.Some? ==>
      && r.value.height2.Some?
      && r.value.height1 % 100 == 0
      && r.value.height2.value % 100 == 0
      && r.value.height2.value < r.value.height1
      && r.value.height1 == RoundHundreds(elev)
      && r.value.height2.value ==
           (var m := RoundHundreds(if elev <= secondary.value then elev else secondary.value);
            if m == r.value.height1 then m - 100 else m)
  {
    if !InElevationRange(elev) || (secondary.Some? && !InElevationRange(secondary.value)) then
      Failure(ElevationError)
    else if (format == Above || format == Below) && secondary.Some? then
      Failure(ElevationError)
    else if (format == Sandwich || format == Middle) && secondary.None? then
      Failure(ElevationError)
    else if secondary.Some? then
      var low := if elev <= secondary.value then elev else secondary.value;
      var heightMax := RoundHundreds(if elev >= elev then elev else elev);
      var heightMin := RoundHundreds(low);
      RoundHundredsMonotone(low, elev);
      var heightMin := heightMin - (if heightMax == heightMin then 100 else 0);
      Success(Elevation(format, heightMax, Some(heightMin)))
    else
      Success(Elevation(format, elev, None))
  }

  /** Because the first height ignores the secondary value, a secondary value
      above `elev` puts the second height exactly 100 below the first, and the
      band exported for SANDWICH 500..1500 is 400..500. */
  lemma ElevationIgnoresHigherSecondary(format: ElevationFormat, elev: int, secondary: int)
    requires format == Sandwich || format == Middle
    requires InElevationRange(elev) && InElevationRange(secondary)
    requires elev < secondary
    ensures NewElevation(format, elev, Some(secondary))
         == Success(Elevation(format, RoundHundreds(elev), Some(RoundHundreds(elev) - 100)))
    ensures NewElevation(Sandwich, 500, Some(1500)) == Success(Elevation(Sandwich, 500, Some(400)))
  {
    assert RoundHundreds(500) == 500;
  }

  // ---------------------------------------------------------------------------
  // Expositions

  /** Some direction in `ds` has enumeration value `i`. */
  predicate Faces(ds: seq<Direction>, i: int) {
    exists k :: 0 <= k < |ds| && ds[k].Index() == i
  }

  /** An `Expositions` object: its `exp` bit string. */
  datatype Expositions = Expositions(exp: string)

  /** `Expositions(ds).exp`: starting from "00000000", each direction of `ds`
      in turn sets its slot to '1'. The result has eight slots, and slot `i`
      is '1' exactly when some direction of `ds` has value `i`. */
  function ExpositionBits(ds: seq<Direction>): (exp: string)
    ensures |exp| == 8
    ensures forall i :: 0 <= i < 8 ==> (exp[i] == '1' <==> Faces(ds, i))
    ensures forall i :: 0 <= i < 8 ==> (exp[i] == '0' <==> !Faces(ds, i))
  {
    if |ds| == 0 then "00000000"
    else
      var prev := ExpositionBits(ds[..|ds| - 1]);
      var slot := ds[|ds| - 1].Index();
      FacesLast(ds);
      // `exp[:slot] + "1" + exp[slot + 1:]` is the update of one slot
      prev[slot := '1']
  }

  lemma FacesLast(ds: seq<Direction>)
    requires |ds| > 0
    ensures forall i :: Faces(ds, i) <==> Faces(ds[..|ds| - 1], i) || i == ds[|ds| - 1].Index()
  {
    var init := ds[..|ds| - 1];
    forall i
      ensures Faces(ds, i) <==> Faces(init, i) || i == ds[|ds| - 1].Index()
    {
      if Faces(ds, i) {
        var k :| 0 <= k < |ds| && ds[k].Index() == i;
        if k < |ds| - 1 {
          assert init[k] == ds[k];
        }
      }
      if Faces(init, i) {
        var k :| 0 <= k < |init| && init[k].Index() == i;
        assert ds[k] == init[k];
      }
    }
  }

  function NewExpositions(ds: seq<Direction>): Expositions {
    Expositions(ExpositionBits(ds))
  }

  /** The bit string depends only on which directions occur: neither their
      order nor repetitions matter. */
  lemma ExpositionsIgnoreOrder(ds1: seq<Direction>, ds2: seq<Direction>)
    requires forall d :: d in ds1 <==> d in ds2
    ensures ExpositionBits(ds1) == ExpositionBits(ds2)
  {
    var e1, e2 := ExpositionBits(ds1), ExpositionBits(ds2);
    forall i | 0 <= i < 8
      ensures e1[i] == e2[i]
    {
      if Faces(ds1, i) {
        var k :| 0 <= k < |ds1| && ds1[k].Index() == i;
        assert ds1[k] in ds2;
        var k2 :| 0 <= k2 < |ds2| && ds2[k2] == ds1[k];
        assert Faces(ds2, i);
      }
      if Faces(ds2, i) {
        var k :| 0 <= k < |ds2| && ds2[k].Index() == i;
        assert ds2[k] in ds1;
        var k1 :| 0 <= k1 < |ds1| && ds1[k1] == ds2[k];
        assert Faces(ds1, i);
      }
    }
  }

  /** North and south set slots 0 and 4. */
  lemma NorthSouthExpositions()
    ensures ExpositionBits([N, S]) == "10001000"
  {
    var e := ExpositionBits([N, S]);
    assert Faces([N, S], 0) && Faces([N, S], 4);
    forall i | 0 <= i < 8 && i != 0 && i != 4
      ensures !Faces([N, S], i)
    {
    }
    assert e == "10001000";
  }
}
