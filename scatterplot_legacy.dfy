/** The earlier magnitude/depth scatterplot (frontend/scatterplot.js): the
    same plotting filter with fixed axes, a click that selects equal points
    and a brush without a ctrl gate. */
module ScatterplotLegacy {
  import opened Wrappers
  import opened JsValues
  import opened Seqs
  import opened Views
  import opened Scatterplot

  const MagKey := "Mag"
  const DepthKey := "Focal Depth (km)"

  /** The features with a magnitude and a depth, in their original order. */
  function Kept(fs: seq<Feature>): (r: seq<Feature>)
    ensures IsSubsequence(r, fs)
    ensures forall f :: f in r <==> f in fs && HasAxes(f, MagKey, DepthKey)
  {
    Plottable(fs, MagKey, DepthKey)
  }

  /** `points`: `{mag, z}` of every kept feature, same length and order. */
  function LegacyPoints(fs: seq<Feature>): (r: seq<Dot>)
    ensures |r| == |Kept(fs)|
    ensures forall i :: 0 <= i < |r| ==>
      Some(r[i].x) == Get(Kept(fs)[i].properties, MagKey) && Some(r[i].y) == Get(Kept(fs)[i].properties, DepthKey)
  {
    Points(Kept(fs), MagKey, DepthKey)
  }

  /** What the click event's source element carries as its datum. The
      brush is attached after the dots, so its overlay lies over them and a
      plain click lands on the overlay (or the brush's selection rectangle),
      an `OnOtherDatum` target; `OnDot` is a click that reaches a circle. */
  datatype ClickTarget =
    | OnDot(dot: Dot)     // a plotted circle
    | OnOtherDatum        // the brush overlay or selection rectangle, or an axis tick: no `mag` or `z`
    | NoDatum             // an element without a datum: reading `.mag` of `undefined` throws

  /** `d.properties.Mag == datum.mag && d.properties['Focal Depth (km)'] == datum.z`. */
  predicate EqualsClicked(f: Feature, d: Dot) {
    LooseEq(Get(f.properties, MagKey), Some(d.x)) && LooseEq(Get(f.properties, DepthKey), Some(d.y))
  }

  /** The click handler: the kept features loosely equal to the clicked
      point, sent to the date selection. */
  function OnClick(fs: seq<Feature>, target: ClickTarget): (r: Result<seq<ViewCall>>)
    ensures target.NoDatum? <==> r.Throws?
    ensures target.OnOtherDatum? ==> r == Ok([DateSelectionUpdate([])])
    ensures target.OnDot? ==>
      r.Ok? && |r.value| == 1 && r.value[0].DateSelectionUpdate?
      && IsSubsequence(r.value[0].features, Kept(fs))
      && forall f :: f in r.value[0].features <==> f in Kept(fs) && EqualsClicked(f, target.dot)
  {
    match target
    case NoDatum => Throws("Cannot read properties of undefined (reading 'mag')")
    case OnOtherDatum =>
      // every kept feature has a magnitude, which never equals `undefined`
      Ok([DateSelectionUpdate([])])
    case OnDot(d) =>
      Ok([DateSelectionUpdate(Filter(Kept(fs), f => EqualsClicked(f, d)))])
  }

  /** Clicking a feature's own dot selects that feature. */
  lemma ClickSelectsClickedFeature(fs: seq<Feature>, i: int)
    requires 0 <= i < |Kept(fs)|
    ensures Kept(fs)[i] in OnClick(fs, OnDot(LegacyPoints(fs)[i])).value[0].features
  {
    var f := Kept(fs)[i];
    var d := LegacyPoints(fs)[i];
    match d.x { case Num(_) => case Text(_) => }
    match d.y { case Num(_) => case Text(_) => }
    assert EqualsClicked(f, d);
  }

  predicate NumericAxes(f: Feature) {
    Get(f.properties, MagKey).Some? && Get(f.properties, MagKey).value.Num?
    && Get(f.properties, DepthKey).Some? && Get(f.properties, DepthKey).value.Num?
  }

  /** When magnitudes and depths are numbers, a click on a dot selects
      exactly the features plotted at that same (magnitude, depth) pair. */
  lemma ClickSelectsEqualPoints(fs: seq<Feature>, d: Dot, f: Feature)
    requires d.x.Num? && d.y.Num? && NumericAxes(f)
    ensures (f in OnClick(fs, OnDot(d)).value[0].features)
        <==> (f in Kept(fs) && DotOf(f, MagKey, DepthKey) == d)
  {
  }

  /** What one legacy brush event does: new fills, the `value` the view
      publishes, and the calls to other views. */
  datatype LegacyBrush = LegacyBrush(fills: seq<Fill>, value: seq<Dot>, calls: seq<ViewCall>)

  function OnLegacyBrush(fs: seq<Feature>, selection: Option<Rect>, sx: Value -> real, sy: Value -> real)
    : (o: LegacyBrush)
    ensures |o.fills| == |Kept(fs)|
    ensures selection.None? ==>
      o.value == [] && o.calls == []
      && forall i :: 0 <= i < |o.fills| ==> o.fills[i] == Black
    ensures selection.Some? ==>
      |o.calls| == 1 && o.calls[0].DateSelectionUpdate?
      && (forall i :: 0 <= i < |o.fills| ==>
            (o.fills[i] == Green <==> InBrush(selection.value, sx, sy, LegacyPoints(fs)[i])))
      && (forall d :: d in o.value <==> d in LegacyPoints(fs) && InBrush(selection.value, sx, sy, d))
  {
    var dots := LegacyPoints(fs);
    match selection
    case None => LegacyBrush(seq(|dots|, _ => Black), [], [])
    case Some(r) =>
      var value := BrushedDots(dots, r, sx, sy);
      LegacyBrush(seq(|dots|, i requires 0 <= i < |dots| => if InBrush(r, sx, sy, dots[i]) then Green else Black),
                  value,
                  [DateSelectionUpdate(CrossSelect(Kept(fs), value, MagKey, DepthKey))])
  }

  /** As in the newer view, the brush's independent magnitude and depth
      membership tests select exactly the kept features whose dot it covers. */
  lemma LegacyBrushSelectsInside(fs: seq<Feature>, r: Rect, sx: Value -> real, sy: Value -> real, f: Feature)
    ensures (f in OnLegacyBrush(fs, Some(r), sx, sy).calls[0].features)
        <==> (f in Kept(fs) && InBrush(r, sx, sy, DotOf(f, MagKey, DepthKey)))
  {
    CrossSelectIsInside(Kept(fs), MagKey, DepthKey, r, sx, sy, f);
  }
}
