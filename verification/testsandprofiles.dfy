/** `TestsAndLayerInfo`: the summary of a column test. The test kind and
    the propagation class are read from the result name, the stratigraphy
    layer the fracture ran in is looked up together with its neighbours, and
    the summary becomes one `;`-separated CSV row. */
module TestsAndProfiles {
  import opened Wrappers
  import opened Strings

  // ---------------------------------------------------------------------------
  // Cells and `_str`

  /** A number as the source holds it; its text form is Python's `str`. */
  datatype Num = Whole(i: int) | Decimal(x: real)

  /** A value of the summary dictionary. */
  datatype Cell = Missing | Text(s: string) | Number(n: Num)

  /** `_str(v)`: `None`, "Ikke gitt" and "Ikke spesifisert" become the empty
      string, any other string is kept, and a number is written by `show`
      (Python's `str`, which is not part of this model). */
  function Wash(c: Cell, show: Num -> string): (r: string)
    ensures c.Missing? ==> r == ""
    ensures c.Text? && c.s in {"Ikke gitt", "Ikke spesifisert"} ==> r == ""
    ensures c.Text? && c.s !in {"Ikke gitt", "Ikke spesifisert"} ==> r == c.s
    ensures c.Number? ==> r == show(c.n)
  {
    match c
    case Missing => ""
    case Text(s) => if s == "Ikke gitt" || s == "Ikke spesifisert" then "" else s
    case Number(n) => show(n)
  }

  /** Washing a washed string changes nothing more. */
  lemma WashIdempotent(c: Cell, show: Num -> string)
    ensures Wash(Text(Wash(c, show)), show) == Wash(c, show)
       || Wash(c, show) in {"Ikke gitt", "Ikke spesifisert"}
  {
  }

  // ---------------------------------------------------------------------------
  // Test kind and propagation class

  /** `_set_test`: "ECT" when the result name contains "ECT", else "CT"
      when it contains "CT", else nothing. */
  function TestOf(result: string): (test: Option<string>)
    ensures test == Some("ECT") <==> Contains(result, "ECT")
    ensures test == Some("CT") <==> !Contains(result, "ECT") && Contains(result, "CT")
    ensures test.None? <==> !Contains(result, "CT")
  {
    if Contains(result, "ECT") then
      ContainsSuffix(result, "ECT", 1);
      assert "ECT"[1..] == "CT";
      Some("ECT")
    else if Contains(result, "CT") then Some("CT")
    else None
  }

  /** `_set_pnx`: "X" for exactly "ECTX" or "CTN", else "P" when the name
      contains "ECTP", else "N" when it contains "ECTN", else nothing. */
  function PnxOf(result: string): (pnx: Option<string>)
    ensures pnx == Some("X") <==> result == "ECTX" || result == "CTN"
    ensures pnx == Some("P") <==> result != "ECTX" && result != "CTN" && Contains(result, "ECTP")
    ensures pnx == Some("N") <==>
      result != "ECTX" && result != "CTN" && !Contains(result, "ECTP") && Contains(result, "ECTN")
    ensures pnx.None? <==>
      result != "ECTX" && result != "CTN" && !Contains(result, "ECTP") && !Contains(result, "ECTN")
  {
    if result == "ECTX" || result == "CTN" then Some("X")
    else if Contains(result, "ECTP") then Some("P")
    else if Contains(result, "ECTN") then Some("N")
    else None
  }

  /** A propagation class always comes with a test kind: "P" and "N" only
      with an extended column test, "X" with the kind its name spells. */
  lemma PnxImpliesTest(result: string)
    ensures PnxOf(result) == Some("P") || PnxOf(result) == Some("N") ==> TestOf(result) == Some("ECT")
    ensures result == "ECTX" ==> TestOf(result) == Some("ECT")
    ensures result == "CTN" ==> TestOf(result) == Some("CT")
  {
    if Contains(result, "ECTP") {
      ContainsPrefix(result, "ECTP", 3);
      assert "ECTP"[..3] == "ECT";
    }
    if Contains(result, "ECTN") {
      ContainsPrefix(result, "ECTN", 3);
      assert "ECTN"[..3] == "ECT";
    }
    if result == "ECTX" {
      assert StartsWith(result, "ECT");
    }
    if result == "CTN" {
      assert StartsWith(result, "CT");
      assert !Contains(result, "ECT") by {
        assert result[..3][0] == 'C';
        assert !StartsWith(result, "ECT");
        ShortLacks(result[1..], "ECT");
      }
    }
  }

  // ---------------------------------------------------------------------------
  // Layer lookup

  /** A stratigraphy layer: depth of its top and its thickness, in the
      profile's unit, grain form and size, and hardness. */
  datatype Layer = Layer(
    depthTop: real,
    thickness: real,
    grainForm: Option<string>,
    grainSize: Option<real>,
    hardness: Option<string>,
    hardnessTid: int)

  /** Layer `i` is hit by a fracture at `depth`: the fracture is on its top
      boundary and it is not the first layer, or the fracture lies strictly
      inside it. */
  predicate Hits(layers: seq<Layer>, depth: real, i: int)
    requires 0 <= i < |layers|
  {
    || (layers[i].depthTop == depth && i > 0)
    || (layers[i].depthTop < depth < layers[i].depthTop + layers[i].thickness)
  }

  /** Layer `i` is the first layer hit. */
  predicate FirstHit(layers: seq<Layer>, depth: real, i: int) {
    && 0 <= i < |layers|
    && Hits(layers, depth, i)
    && forall j :: 0 <= j < i ==> !Hits(layers, depth, j)
  }

  /** The layer chosen for hit `i`: on a boundary the looser of the two
      layers meeting there (the lower hardness code), the lower one on a
      tie; inside a layer, that layer. */
  function Resolve(layers: seq<Layer>, depth: real, i: int): (j: int)
    requires 0 <= i < |layers| && Hits(layers, depth, i)
    ensures j == i || (i > 0 && j == i - 1)
    ensures j != i ==> layers[i].depthTop == depth && layers[j].hardnessTid < layers[i].hardnessTid
  {
    if layers[i].depthTop == depth && i > 0 && layers[i].hardnessTid > layers[i - 1].hardnessTid then i - 1
    else i
  }

  /** The loop of `_set_layer_info`: the layers are visited in order until
      one is selected; a boundary hit on a harder layer steps back to the
      layer above. The first hit decides and no later layer is looked at. */
  method SelectLayer(layers: seq<Layer>, depth: real) returns (chosen: Option<nat>)
    ensures chosen.None? <==> forall i :: 0 <= i < |layers| ==> !Hits(layers, depth, i)
    ensures chosen.Some? ==> chosen.value < |layers|
    ensures forall i :: FirstHit(layers, depth, i) ==> chosen == Some(Resolve(layers, depth, i))
  {
    chosen := None;
    var index := 0;
    var selected := false;
    ghost var hit := 0;
    for k := 0 to |layers|
      invariant !selected ==> index == k && chosen.None?
      invariant !selected ==> forall j :: 0 <= j < k ==> !Hits(layers, depth, j)
      invariant selected ==> FirstHit(layers, depth, hit) && hit < k
      invariant selected ==> chosen == Some(Resolve(layers, depth, hit))
    {
      if !selected {
        var l := layers[k];
        if l.depthTop == depth {
          if index > 0 {
            if l.hardnessTid <= layers[index - 1].hardnessTid {
              selected := true;
            } else {
              index := index - 1;
              selected := true;
            }
          }
        } else if l.depthTop < depth < l.depthTop + l.thickness {
          selected := true;
        }
        if selected {
          hit := k;
          chosen := Some(index);
        }
        index := index + 1;
      }
    }
    if selected {
      assert FirstHit(layers, depth, hit);
    }
  }

  /** There is at most one first hit. */
  lemma FirstHitUnique(layers: seq<Layer>, depth: real, i: int, j: int)
    requires FirstHit(layers, depth, i) && FirstHit(layers, depth, j)
    ensures i == j
  {
  }

  /** The five fields read from one layer; all `None` when no layer. */
  datatype LayerInfo = LayerInfo(
    thickness: Option<real>,
    grainForm: Option<string>,
    grainSize: Option<real>,
    hardness: Option<string>,
    hardnessTid: Option<int>)

  const NoLayer := LayerInfo(None, None, None, None, None)

  function Describe(l: Layer): LayerInfo {
    LayerInfo(Some(l.thickness), l.grainForm, l.grainSize, l.hardness, Some(l.hardnessTid))
  }

  /** The column test as read from an observation. */
  datatype ColumnTest = ColumnTest(
    propagation: string,
    depth: Option<real>,
    taps: Option<int>,
    fracture: Option<string>,
    regId: string,
    obsTime: string,
    regionName: Option<string>,
    regionTid: Option<int>)

  /** A `TestsAndLayerInfo` object. */
  datatype Summary = Summary(
    result: string,
    test: Option<string>,
    pnx: Option<string>,
    depth: Option<real>,
    taps: Option<int>,
    fracture: Option<string>,
    url: string,
    obsTime: string,
    regionName: Option<string>,
    regionTid: Option<int>,
    layer: LayerInfo,
    above: LayerInfo,
    below: LayerInfo)

  /** The layer lookup runs only for a non-zero fracture depth and a given
      profile. */
  predicate LooksUp(t: ColumnTest, profile: Option<seq<Layer>>) {
    t.depth.Some? && t.depth.value != 0.0 && profile.Some?
  }

  /** The chosen layer `j` and its neighbours: the layer above when `j` is not
      the first, the layer below when `j` is not the last. */
  predicate Around(layers: seq<Layer>, j: int, s: Summary)
    requires 0 <= j < |layers|
  {
    && s.layer == Describe(layers[j])
    && s.above == (if j > 0 then Describe(layers[j - 1]) else NoLayer)
    && s.below == (if j + 1 < |layers| then Describe(layers[j + 1]) else NoLayer)
  }

  /** `TestsAndLayerInfo(t, p)`; the registration URL is `base` followed by
      the registration id. */
  method Summarise(t: ColumnTest, profile: Option<seq<Layer>>, base: string) returns (s: Summary)
    ensures s.result == t.propagation && s.test == TestOf(t.propagation) && s.pnx == PnxOf(t.propagation)
    ensures s.depth == t.depth && s.taps == t.taps && s.fracture == t.fracture
    ensures s.url == base + t.regId && s.obsTime == t.obsTime
    ensures s.regionName == t.regionName && s.regionTid == t.regionTid
    ensures !LooksUp(t, profile) ==> s.layer == NoLayer && s.above == NoLayer && s.below == NoLayer
    ensures LooksUp(t, profile) && (forall i :: 0 <= i < |profile.value| ==> !Hits(profile.value, t.depth.value, i))
      ==> s.layer == NoLayer && s.above == NoLayer && s.below == NoLayer
    ensures forall i :: LooksUp(t, profile) && FirstHit(profile.value, t.depth.value, i) ==>
      Around(profile.value, Resolve(profile.value, t.depth.value, i), s)
  {
    s := Summary(
      t.propagation, TestOf(t.propagation), PnxOf(t.propagation), t.depth, t.taps, t.fracture,
      base + t.regId, t.obsTime, t.regionName, t.regionTid, NoLayer, NoLayer, NoLayer);
    if LooksUp(t, profile) {
      var layers := profile.value;
      var chosen := SelectLayer(layers, t.depth.value);
      if chosen.Some? {
        var j := chosen.value;
        var above := if j > 0 then Describe(layers[j - 1]) else NoLayer;
        var below := if j + 1 < |layers| then Describe(layers[j + 1]) else NoLayer;
        s := s.(layer := Describe(layers[j]), above := above, below := below);
      }
    }
  }

  // ---------------------------------------------------------------------------
  // to_ord_dict and the CSV row

  /** The keys of `to_ord_dict`, in order. */
  const Header: seq<string> := [
    "Result", "Test", "PNX", "Depth", "Taps", "Fracture",
    "Layer thick", "Layer grain", "Layer grain \U{D8}", "Layer hardness",
    "Above thick", "Above grain", "Above grain \U{D8}", "Above hardness",
    "Below thick", "Below grain", "Below grain \U{D8}", "Below hardness",
    "Region", "Region ID", "Obs time", "URL"
  ]

  function OptText(o: Option<string>): Cell {
    if o.Some? then Text(o.value) else Missing
  }

  function OptDecimal(o: Option<real>): Cell {
    if o.Some? then Number(Decimal(o.value)) else Missing
  }

  function OptWhole(o: Option<int>): Cell {
    if o.Some? then Number(Whole(o.value)) else Missing
  }

  /** Thickness, grain form, grain size and hardness name of a layer; the
      hardness code is not exported. */
  function LayerCells(l: LayerInfo): (cells: seq<Cell>)
    ensures |cells| == 4
    ensures cells[0] == OptDecimal(l.thickness) && cells[1] == OptText(l.grainForm)
    ensures cells[2] == OptDecimal(l.grainSize) && cells[3] == OptText(l.hardness)
  {
    [OptDecimal(l.thickness), OptText(l.grainForm), OptDecimal(l.grainSize), OptText(l.hardness)]
  }

  /** `to_ord_dict().values()`: one value per key of `Header`. */
  function Values(s: Summary): (cells: seq<Cell>)
    ensures |cells| == |Header|
    ensures cells[0] == Text(s.result) && cells[21] == Text(s.url)
    ensures cells[1..6] == [OptText(s.test), OptText(s.pnx), OptDecimal(s.depth), OptWhole(s.taps), OptText(s.fracture)]
    ensures cells[6..10] == LayerCells(s.layer)
    ensures cells[10..14] == LayerCells(s.above)
    ensures cells[14..18] == LayerCells(s.below)
    ensures cells[18..21] == [OptText(s.regionName), OptWhole(s.regionTid), Text(s.obsTime)]
  {
    [Text(s.result), OptText(s.test), OptText(s.pnx), OptDecimal(s.depth), OptWhole(s.taps), OptText(s.fracture)]
    + LayerCells(s.layer) + LayerCells(s.above) + LayerCells(s.below)
    + [OptText(s.regionName), OptWhole(s.regionTid), Text(s.obsTime), Text(s.url)]
  }

  /** Each key of `to_ord_dict` stands next to its own field of the summary:
      column `i` of `Values(s)` holds the field that `Header[i]` names. */
  lemma ValuesFollowHeader(s: Summary)
    ensures Header[0] == "Result" && Values(s)[0] == Text(s.result)
    ensures Header[1] == "Test" && Values(s)[1] == OptText(s.test)
    ensures Header[2] == "PNX" && Values(s)[2] == OptText(s.pnx)
    ensures Header[3] == "Depth" && Values(s)[3] == OptDecimal(s.depth)
    ensures Header[4] == "Taps" && Values(s)[4] == OptWhole(s.taps)
    ensures Header[5] == "Fracture" && Values(s)[5] == OptText(s.fracture)
    ensures Header[6] == "Layer thick" && Values(s)[6] == OptDecimal(s.layer.thickness)
    ensures Header[7] == "Layer grain" && Values(s)[7] == OptText(s.layer.grainForm)
    ensures Header[8] == "Layer grain \U{D8}" && Values(s)[8] == OptDecimal(s.layer.grainSize)
    ensures Header[9] == "Layer hardness" && Values(s)[9] == OptText(s.layer.hardness)
    ensures Header[10] == "Above thick" && Values(s)[10] == OptDecimal(s.above.thickness)
    ensures Header[11] == "Above grain" && Values(s)[11] == OptText(s.above.grainForm)
    ensures Header[12] == "Above grain \U{D8}" && Values(s)[12] == OptDecimal(s.above.grainSize)
    ensures Header[13] == "Above hardness" && Values(s)[13] == OptText(s.above.hardness)
    ensures Header[14] == "Below thick" && Values(s)[14] == OptDecimal(s.below.thickness)
    ensures Header[15] == "Below grain" && Values(s)[15] == OptText(s.below.grainForm)
    ensures Header[16] == "Below grain \U{D8}" && Values(s)[16] == OptDecimal(s.below.grainSize)
    ensures Header[17] == "Below hardness" && Values(s)[17] == OptText(s.below.hardness)
    ensures Header[18] == "Region" && Values(s)[18] == OptText(s.regionName)
    ensures Header[19] == "Region ID" && Values(s)[19] == OptWhole(s.regionTid)
    ensures Header[20] == "Obs time" && Values(s)[20] == Text(s.obsTime)
    ensures Header[21] == "URL" && Values(s)[21] == Text(s.url)
  {
    HeaderNames();
    HeaderNamesRest();
    ValueColumns(s);
  }

  lemma HeaderNames()
    ensures Header[0] == "Result" && Header[1] == "Test"
    ensures Header[2] == "PNX" && Header[3] == "Depth"
    ensures Header[4] == "Taps" && Header[5] == "Fracture"
    ensures Header[6] == "Layer thick" && Header[7] == "Layer grain"
    ensures Header[8] == "Layer grain \U{D8}" && Header[9] == "Layer hardness"
    ensures Header[10] == "Above thick" && Header[11] == "Above grain"
  {
  }

  lemma HeaderNamesRest()
    ensures Header[12] == "Above grain \U{D8}" && Header[13] == "Above hardness"
    ensures Header[14] == "Below thick" && Header[15] == "Below grain"
    ensures Header[16] == "Below grain \U{D8}" && Header[17] == "Below hardness"
    ensures Header[18] == "Region" && Header[19] == "Region ID"
    ensures Header[20] == "Obs time" && Header[21] == "URL"
  {
  }

  lemma ValueColumns(s: Summary)
    ensures Values(s)[0] == Text(s.result)
    ensures Values(s)[1] == OptText(s.test)
    ensures Values(s)[2] == OptText(s.pnx)
    ensures Values(s)[3] == OptDecimal(s.depth)
    ensures Values(s)[4] == OptWhole(s.taps)
    ensures Values(s)[5] == OptText(s.fracture)
    ensures Values(s)[6] == OptDecimal(s.layer.thickness)
    ensures Values(s)[7] == OptText(s.layer.grainForm)
    ensures Values(s)[8] == OptDecimal(s.layer.grainSize)
    ensures Values(s)[9] == OptText(s.layer.hardness)
    ensures Values(s)[10] == OptDecimal(s.above.thickness)
    ensures Values(s)[11] == OptText(s.above.grainForm)
    ensures Values(s)[12] == OptDecimal(s.above.grainSize)
    ensures Values(s)[13] == OptText(s.above.hardness)
    ensures Values(s)[14] == OptDecimal(s.below.thickness)
    ensures Values(s)[15] == OptText(s.below.grainForm)
    ensures Values(s)[16] == OptDecimal(s.below.grainSize)
    ensures Values(s)[17] == OptText(s.below.hardness)
    ensures Values(s)[18] == OptText(s.regionName)
    ensures Values(s)[19] == OptWhole(s.regionTid)
    ensures Values(s)[20] == Text(s.obsTime)
    ensures Values(s)[21] == Text(s.url)
  {
    var cells := Values(s);
    assert cells[6..10][0] == cells[6] && cells[6..10][1] == cells[7];
    assert cells[6..10][2] == cells[8] && cells[6..10][3] == cells[9];
    assert cells[10..14][0] == cells[10] && cells[10..14][1] == cells[11];
    assert cells[10..14][2] == cells[12] && cells[10..14][3] == cells[13];
    assert cells[14..18][0] == cells[14] && cells[14..18][1] == cells[15];
    assert cells[14..18][2] == cells[16] && cells[14..18][3] == cells[17];
    assert cells[1..6][0] == cells[1] && cells[1..6][4] == cells[5];
    assert cells[18..21][0] == cells[18] && cells[18..21][2] == cells[20];
  }

  function WashAll(cells: seq<Cell>, show: Num -> string): (texts: seq<string>)
    ensures |texts| == |cells|
    ensures forall i :: 0 <= i < |cells| ==> texts[i] == Wash(cells[i], show)
  {
    seq(|cells|, i requires 0 <= i < |cells| => Wash(cells[i], show))
  }

  /** One line of the CSV file, without its newline: the washed values
      joined by `;`. */
  function Row(cells: seq<Cell>, show: Num -> string): string {
    Join(WashAll(cells, show), ";")
  }

  /** Splitting a row at `;` gives back the washed values, one per key,
      as long as none of them contains a `;`. */
  lemma RowFields(s: Summary, show: Num -> string)
    requires forall i :: 0 <= i < |Header| ==> ';' !in Wash(Values(s)[i], show)
    ensures Split(Row(Values(s), show), ';') == WashAll(Values(s), show)
    ensures |Split(Row(Values(s), show), ';')| == |Header|
  {
    JoinSplit(WashAll(Values(s), show), ';');
  }

  /** The header line splits back into the keys. */
  lemma HeaderFields(show: Num -> string)
    ensures Split(Row(seq(|Header|, i requires 0 <= i < |Header| => Text(Header[i])), show), ';') == Header
  {
    var cells := seq(|Header|, i requires 0 <= i < |Header| => Text(Header[i]));
    HeaderPlain();
    assert WashAll(cells, show) == Header;
    JoinSplit(Header, ';');
  }

  /** No key contains a `;` or is one of the washed-out markers. */
  lemma HeaderPlain()
    ensures forall i :: 0 <= i < |Header| ==>
      ';' !in Header[i] && Header[i] !in {"Ikke gitt", "Ikke spesifisert"}
  {
  }
}
