/** The scatterplot view (frontend/plots/scatterplot.js): which features it
    plots, which scale each axis gets, and which features a ctrl-brush or a
    highlight request picks out. Pixel scales are abstract functions `sx`,
    `sy` from a property value to a screen coordinate. */
module Scatterplot {
  import opened Wrappers
  import opened JsValues
  import opened Seqs
  import opened Views

  /** One plotted point: the feature's values on the x and y axes. */
  datatype Dot = Dot(x: Value, y: Value)

  /** An axis scale. A linear scale runs from 0 to the axis maximum (which
      is `undefined` when no value is a number); a symlog scale runs from 0.1. */
  datatype Scale = Linear(top: Option<real>) | Symlog(upper: real)

  datatype Fill = Black | Green | Yellow

  /** A brush selection `[[x0, y0], [x1, y1]]` in screen coordinates. */
  datatype Rect = Rect(x0: real, y0: real, x1: real, y1: real)

  /** What one render leaves on screen. */
  datatype Outcome =
    | NoData                                         // only the "No data available" text
    | Plot(dots: seq<Dot>, xScale: Scale, yScale: Scale)
    | Highlight(fills: seq<Fill>)                    // new fills of the dots already drawn
    | NoChange

  /** What one brush event does. */
  datatype BrushOutcome =
    | Ignored                                        // the gesture did not hold ctrl
    | Cleared(fills: seq<Fill>)
    | Brushed(fills: seq<Fill>, calls: seq<ViewCall>)

  predicate HasAxes(f: Feature, xLabel: string, yLabel: string) {
    Get(f.properties, xLabel).Some? && Get(f.properties, yLabel).Some?
  }

  /** The features that have both chosen attributes, in their original order. */
  function Plottable(fs: seq<Feature>, xLabel: string, yLabel: string): (r: seq<Feature>)
    ensures IsSubsequence(r, fs)
    ensures forall i :: 0 <= i < |r| ==> HasAxes(r[i], xLabel, yLabel)
    ensures forall i :: 0 <= i < |fs| && HasAxes(fs[i], xLabel, yLabel) ==> fs[i] in r
  {
    Filter(fs, f => HasAxes(f, xLabel, yLabel))
  }

  function DotOf(f: Feature, xLabel: string, yLabel: string): Dot
    requires HasAxes(f, xLabel, yLabel)
  {
    Dot(Get(f.properties, xLabel).value, Get(f.properties, yLabel).value)
  }

  /** `points`: one dot per feature, in the same order.
      Proof helper: its ensures restate the body for the lemmas that use it. */
  function Points(fs: seq<Feature>, xLabel: string, yLabel: string): (r: seq<Dot>)
    requires forall i :: 0 <= i < |fs| ==> HasAxes(fs[i], xLabel, yLabel)
    ensures |r| == |fs|
    ensures forall i :: 0 <= i < |fs| ==> r[i] == DotOf(fs[i], xLabel, yLabel)
  {
    seq(|fs|, i requires 0 <= i < |fs| => DotOf(fs[i], xLabel, yLabel))
  }

  /** A position at which `x` occurs in `s`. */
  lemma IndexOf<T>(x: T, s: seq<T>) returns (j: nat)
    requires x in s
    ensures j < |s| && s[j] == x
  {
    j :| j < |s| && s[j] == x;
  }

  /** `d` is the point of one of the features that have both attributes. */
  predicate PointOf(fs: seq<Feature>, xLabel: string, yLabel: string, d: Dot) {
    exists i :: 0 <= i < |fs| && HasAxes(fs[i], xLabel, yLabel) && DotOf(fs[i], xLabel, yLabel) == d
  }

  /** The filter plot draws a dot exactly where some feature with both
      attributes has its point. */
  lemma {:induction false} PlottedDotsAreFeaturePoints(fs: seq<Feature>, xLabel: string, yLabel: string, d: Dot)
    ensures d in Points(Plottable(fs, xLabel, yLabel), xLabel, yLabel) <==> PointOf(fs, xLabel, yLabel, d)
  {
    var kept := Plottable(fs, xLabel, yLabel);
    var points := Points(kept, xLabel, yLabel);
    if d in points {
      var j := IndexOf(d, points);
      var i := IndexOf(kept[j], fs);
      assert HasAxes(fs[i], xLabel, yLabel) && DotOf(fs[i], xLabel, yLabel) == d;
    }
    if PointOf(fs, xLabel, yLabel, d) {
      var i :| 0 <= i < |fs| && HasAxes(fs[i], xLabel, yLabel) && DotOf(fs[i], xLabel, yLabel) == d;
      var j := IndexOf(fs[i], kept);
      assert points[j] == d;
    }
  }

  /** `value.map(v => v.x)`: the x value of every dot, in order.
      Proof helper: its ensures restate the body for the lemmas that use it. */
  function XValues(dots: seq<Dot>): (r: seq<Value>)
    ensures |r| == |dots| && forall i :: 0 <= i < |dots| ==> r[i] == dots[i].x
  {
    seq(|dots|, i requires 0 <= i < |dots| => dots[i].x)
  }

  /** `value.map(v => v.y)`: the y value of every dot, in order.
      Proof helper: its ensures restate the body for the lemmas that use it. */
  function YValues(dots: seq<Dot>): (r: seq<Value>)
    ensures |r| == |dots| && forall i :: 0 <= i < |dots| ==> r[i] == dots[i].y
  {
    seq(|dots|, i requires 0 <= i < |dots| => dots[i].y)
  }

  predicate Attains(vs: seq<Value>, m: real) {
    exists i :: 0 <= i < |vs| && vs[i] == Num(m)
  }

  /** The upper end of `d3.extent` over numeric values: `undefined` when
      there is no number, otherwise the largest one. */
  function AxisTop(vs: seq<Value>): (r: Option<real>)
    ensures r.None? <==> forall i :: 0 <= i < |vs| ==> !vs[i].Num?
    ensures r.Some? ==> Attains(vs, r.value)
    ensures r.Some? ==> forall i :: 0 <= i < |vs| && vs[i].Num? ==> vs[i].n <= r.value
  {
    if vs == [] then None
    else
      var t := AxisTop(vs[1..]);
      assert forall i :: 1 <= i < |vs| ==> vs[i] == vs[1..][i - 1];
      assert t.Some? ==> Attains(vs, t.value) by {
        if t.Some? {
          var k :| 0 <= k < |vs[1..]| && vs[1..][k] == Num(t.value);
          assert vs[k + 1] == Num(t.value);
        }
      }
      match vs[0]
      case Num(n) => if t.None? || n > t.value then Some(n) else t
      case Text(_) => t
  }

  /** An axis is symlog exactly when its maximum is above 1000. */
  function ScaleFor(top: Option<real>): (s: Scale)
    ensures s.Symlog? <==> top.Some? && top.value > 1000.0
    ensures s.Symlog? ==> s.upper == top.value
    ensures s.Linear? ==> s.top == top
  {
    if top.Some? && top.value > 1000.0 then Symlog(top.value) else Linear(top)
  }

  /** `action == name` for an action name: only a string can equal it (an
      array of feature objects converts to text that is never an action name,
      and `undefined` equals no string). */
  predicate ActionIs(a: ScatterAction, name: string) {
    a.ActionText? && a.text == name
  }

  /** `selectedData.map(v => v.properties[label])`. */
  function Column(fs: seq<Feature>, key: string): seq<Option<Value>> {
    seq(|fs|, i requires 0 <= i < |fs| => Get(fs[i].properties, key))
  }

  /** Some selected feature has value `v` under `key`. */
  predicate Carries(sel: seq<Feature>, key: string, v: Value) {
    exists j :: 0 <= j < |sel| && Get(sel[j].properties, key) == Some(v)
  }

  /** Highlight mode: every drawn dot whose x is some selected feature's x
      value and whose y is some (possibly other) selected feature's y value
      turns yellow; every other dot turns black. */
  function HighlightFills(drawn: seq<Dot>, sel: seq<Feature>, xLabel: string, yLabel: string): (r: seq<Fill>)
    ensures |r| == |drawn|
    ensures forall i :: 0 <= i < |drawn| ==>
      (r[i] == Yellow <==> Carries(sel, xLabel, drawn[i].x) && Carries(sel, yLabel, drawn[i].y))
      && (r[i] == Black <==> !(Carries(sel, xLabel, drawn[i].x) && Carries(sel, yLabel, drawn[i].y)))
  {
    assert forall v :: Some(v) in Column(sel, xLabel) <==> Carries(sel, xLabel, v) by {
      forall v ensures Some(v) in Column(sel, xLabel) <==> Carries(sel, xLabel, v) {
        if Some(v) in Column(sel, xLabel) {
          var j :| 0 <= j < |sel| && Column(sel, xLabel)[j] == Some(v);
        }
        if Carries(sel, xLabel, v) {
          var j :| 0 <= j < |sel| && Get(sel[j].properties, xLabel) == Some(v);
          assert Column(sel, xLabel)[j] == Some(v);
        }
      }
    }
    assert forall v :: Some(v) in Column(sel, yLabel) <==> Carries(sel, yLabel, v) by {
      forall v ensures Some(v) in Column(sel, yLabel) <==> Carries(sel, yLabel, v) {
        if Some(v) in Column(sel, yLabel) {
          var j :| 0 <= j < |sel| && Column(sel, yLabel)[j] == Some(v);
        }
        if Carries(sel, yLabel, v) {
          var j :| 0 <= j < |sel| && Get(sel[j].properties, yLabel) == Some(v);
          assert Column(sel, yLabel)[j] == Some(v);
        }
      }
    }
    seq(|drawn|, i requires 0 <= i < |drawn| =>
      if Some(drawn[i].x) in Column(sel, xLabel) && Some(drawn[i].y) in Column(sel, yLabel) then Yellow else Black)
  }

  /** `render(plots, [features, action, xLabel, yLabel])`; `drawn` holds the
      dots currently on screen, which highlight mode recolours. */
  function Render(fs: seq<Feature>, action: ScatterAction, xLabel: string, yLabel: string, drawn: seq<Dot>): Outcome
  {
    var kept := Plottable(fs, xLabel, yLabel);
    if ActionIs(action, "filter") then
      var points := Points(kept, xLabel, yLabel);
      if |points| == 0 then NoData
      else Plot(points, ScaleFor(AxisTop(XValues(points))), ScaleFor(AxisTop(YValues(points))))
    else if ActionIs(action, "highlight") then
      Highlight(HighlightFills(drawn, kept, xLabel, yLabel))
    else NoChange
  }

  /** In filter mode the plot shows "No data available" exactly when no
      feature has both attributes; otherwise it shows one dot per such
      feature, in order. */
  lemma FilterShowsPlottable(fs: seq<Feature>, xLabel: string, yLabel: string, drawn: seq<Dot>)
    ensures var o := Render(fs, ActionText("filter"), xLabel, yLabel, drawn);
      (o.NoData? <==> forall i :: 0 <= i < |fs| ==> !HasAxes(fs[i], xLabel, yLabel))
      && (o.Plot? ==> o.dots == Points(Plottable(fs, xLabel, yLabel), xLabel, yLabel))
  {
    var kept := Plottable(fs, xLabel, yLabel);
    if exists i :: 0 <= i < |fs| && HasAxes(fs[i], xLabel, yLabel) {
      var i :| 0 <= i < |fs| && HasAxes(fs[i], xLabel, yLabel);
      assert fs[i] in kept;
    }
  }

  /** In filter mode an axis is symlog exactly when some plotted feature has
      a numeric value above 1000 on it. */
  lemma {:induction false} SymlogIffLargeValue(fs: seq<Feature>, xLabel: string, yLabel: string, drawn: seq<Dot>)
    ensures var o := Render(fs, ActionText("filter"), xLabel, yLabel, drawn);
      o.Plot? ==>
        (o.xScale.Symlog? <==> exists i :: 0 <= i < |o.dots| && o.dots[i].x.Num? && o.dots[i].x.n > 1000.0)
        && (o.yScale.Symlog? <==> exists i :: 0 <= i < |o.dots| && o.dots[i].y.Num? && o.dots[i].y.n > 1000.0)
  {
    var o := Render(fs, ActionText("filter"), xLabel, yLabel, drawn);
    if o.Plot? {
      var xs := XValues(o.dots);
      var ys := YValues(o.dots);
      var tx := AxisTop(xs);
      var ty := AxisTop(ys);
      if tx.Some? && tx.value > 1000.0 {
        var k :| 0 <= k < |xs| && xs[k] == Num(tx.value);
        assert o.dots[k].x.Num? && o.dots[k].x.n > 1000.0;
      }
      if ty.Some? && ty.value > 1000.0 {
        var k :| 0 <= k < |ys| && ys[k] == Num(ty.value);
        assert o.dots[k].y.Num? && o.dots[k].y.n > 1000.0;
      }
    }
  }

  /** Data whose action is an array of features or `undefined` (what the map
      view sends) changes nothing on the scatterplot. */
  lemma NonTextActionChangesNothing(fs: seq<Feature>, a: ScatterAction, xLabel: string, yLabel: string, drawn: seq<Dot>)
    requires !a.ActionText?
    ensures Render(fs, a, xLabel, yLabel, drawn) == NoChange
  {
  }

  /** Highlight mode turns yellow every drawn dot that is the dot of a
      selected feature. */
  lemma HighlightShowsSelection(sel: seq<Feature>, xLabel: string, yLabel: string, drawn: seq<Dot>, i: int, f: Feature)
    requires 0 <= i < |drawn|
    requires f in sel && HasAxes(f, xLabel, yLabel) && drawn[i] == DotOf(f, xLabel, yLabel)
    ensures HighlightFills(drawn, sel, xLabel, yLabel)[i] == Yellow
  {
    var j :| 0 <= j < |sel| && sel[j] == f;
    assert Get(sel[j].properties, xLabel) == Some(drawn[i].x);
    assert Get(sel[j].properties, yLabel) == Some(drawn[i].y);
  }

  /** A highlight request recolours the drawn dots against the plottable
      part of the request. */
  lemma HighlightRender(fs: seq<Feature>, xLabel: string, yLabel: string, drawn: seq<Dot>)
    ensures Render(fs, ActionText("highlight"), xLabel, yLabel, drawn)
         == Highlight(HighlightFills(drawn, Plottable(fs, xLabel, yLabel), xLabel, yLabel))
  {
  }

  /** Half-open brush membership of a dot, in screen coordinates. */
  predicate InBrush(r: Rect, sx: Value -> real, sy: Value -> real, d: Dot) {
    r.x0 <= sx(d.x) < r.x1 && r.y0 <= sy(d.y) < r.y1
  }

  /** The brushed dots, in plotting order. */
  function BrushedDots(dots: seq<Dot>, r: Rect, sx: Value -> real, sy: Value -> real): (v: seq<Dot>)
    ensures IsSubsequence(v, dots)
    ensures forall d :: d in v <==> d in dots && InBrush(r, sx, sy, d)
  {
    Filter(dots, d => InBrush(r, sx, sy, d))
  }

  /** A kept feature is selected when its x is among the brushed x values and
      its y among the brushed y values, checked independently. */
  predicate CrossMember(f: Feature, value: seq<Dot>, xLabel: string, yLabel: string) {
    HasAxes(f, xLabel, yLabel)
    && Get(f.properties, xLabel).value in XValues(value)
    && Get(f.properties, yLabel).value in YValues(value)
  }

  function CrossSelect(kept: seq<Feature>, value: seq<Dot>, xLabel: string, yLabel: string): (r: seq<Feature>)
    ensures IsSubsequence(r, kept)
    ensures forall f :: f in r <==> f in kept && CrossMember(f, value, xLabel, yLabel)
  {
    Filter(kept, f => CrossMember(f, value, xLabel, yLabel))
  }

  /** One `start`, `brush` or `end` event of the ctrl-brush on a plot built
      from `fs`. */
  function OnBrush(fs: seq<Feature>, xLabel: string, yLabel: string, ctrl: bool, selection: Option<Rect>,
                   sx: Value -> real, sy: Value -> real): (o: BrushOutcome)
    ensures !ctrl <==> o.Ignored?
    ensures ctrl && selection.None? ==>
      o.Cleared? && |o.fills| == |Plottable(fs, xLabel, yLabel)| && forall i :: 0 <= i < |o.fills| ==> o.fills[i] == Black
    ensures ctrl && selection.Some? ==> o.Brushed?
  {
    if !ctrl then Ignored
    else
      var kept := Plottable(fs, xLabel, yLabel);
      var dots := Points(kept, xLabel, yLabel);
      match selection
      case None => Cleared(seq(|dots|, _ => Black))
      case Some(r) =>
        var value := BrushedDots(dots, r, sx, sy);
        var selected := CrossSelect(kept, value, xLabel, yLabel);
        Brushed(seq(|dots|, i requires 0 <= i < |dots| => if InBrush(r, sx, sy, dots[i]) then Green else Black),
                [DateSelectionUpdate(selected), GeoMapUpdate(selected)])
  }

  /** A brush turns exactly the dots inside it green, and sends the
      cross-selected features to the date selection and the map. */
  lemma BrushColoursAndSends(fs: seq<Feature>, xLabel: string, yLabel: string, r: Rect,
                             sx: Value -> real, sy: Value -> real)
    ensures var o := OnBrush(fs, xLabel, yLabel, true, Some(r), sx, sy);
      var kept := Plottable(fs, xLabel, yLabel);
      |o.fills| == |kept|
      && (forall i :: 0 <= i < |kept| ==>
            (o.fills[i] == Green <==> InBrush(r, sx, sy, DotOf(kept[i], xLabel, yLabel)))
            && o.fills[i] != Yellow)
      && |o.calls| == 2 && o.calls[0].DateSelectionUpdate? && o.calls[1].GeoMapUpdate?
      && o.calls[0].features == o.calls[1].features
      && (forall f :: f in o.calls[0].features <==>
            f in kept && CrossMember(f, BrushedDots(Points(kept, xLabel, yLabel), r, sx, sy), xLabel, yLabel))
  {
  }

  /** With a rectangular brush the independent x- and y-membership tests
      pick out exactly the plotted features whose own dot lies inside the
      brush: a feature whose x is some brushed dot's x and whose y is some
      brushed dot's y sits at a screen point inside the same rectangle. */
  lemma InsideIsCrossMember(kept: seq<Feature>, xLabel: string, yLabel: string, value: seq<Dot>,
                             r: Rect, sx: Value -> real, sy: Value -> real, j: int)
    requires forall i :: 0 <= i < |kept| ==> HasAxes(kept[i], xLabel, yLabel)
    requires value == BrushedDots(Points(kept, xLabel, yLabel), r, sx, sy)
    requires 0 <= j < |kept| && InBrush(r, sx, sy, DotOf(kept[j], xLabel, yLabel))
    ensures CrossMember(kept[j], value, xLabel, yLabel)
  {
    var d := DotOf(kept[j], xLabel, yLabel);
    assert Points(kept, xLabel, yLabel)[j] == d;
    assert d in value;
    var k :| 0 <= k < |value| && value[k] == d;
    assert XValues(value)[k] == d.x;
    assert YValues(value)[k] == d.y;
  }

  lemma CrossMemberIsInside(f: Feature, xLabel: string, yLabel: string, value: seq<Dot>,
                            r: Rect, sx: Value -> real, sy: Value -> real)
    requires forall i :: 0 <= i < |value| ==> InBrush(r, sx, sy, value[i])
    requires CrossMember(f, value, xLabel, yLabel)
    ensures InBrush(r, sx, sy, DotOf(f, xLabel, yLabel))
  {
    var d := DotOf(f, xLabel, yLabel);
    var i :| 0 <= i < |value| && XValues(value)[i] == d.x;
    var k :| 0 <= k < |value| && YValues(value)[k] == d.y;
    assert InBrush(r, sx, sy, value[i]) && InBrush(r, sx, sy, value[k]);
  }

  /** With a rectangular brush the independent x- and y-membership tests
      pick out exactly the plotted features whose own dot lies inside the
      brush: a feature whose x is some brushed dot's x and whose y is some
      brushed dot's y sits at a screen point inside the same rectangle. */
  lemma CrossSelectIsInside(kept: seq<Feature>, xLabel: string, yLabel: string, r: Rect,
                            sx: Value -> real, sy: Value -> real, f: Feature)
    requires forall i :: 0 <= i < |kept| ==> HasAxes(kept[i], xLabel, yLabel)
    ensures var value := BrushedDots(Points(kept, xLabel, yLabel), r, sx, sy);
      (f in CrossSelect(kept, value, xLabel, yLabel)) <==> (f in kept && InBrush(r, sx, sy, DotOf(f, xLabel, yLabel)))
  {
    var value := BrushedDots(Points(kept, xLabel, yLabel), r, sx, sy);
    CrossSelectedIsInside(kept, xLabel, yLabel, value, r, sx, sy, f);
    if f in kept && InBrush(r, sx, sy, DotOf(f, xLabel, yLabel)) {
      InsideIsCrossSelected(kept, xLabel, yLabel, value, r, sx, sy, f);
    }
  }

  lemma CrossSelectedIsInside(kept: seq<Feature>, xLabel: string, yLabel: string, value: seq<Dot>,
                              r: Rect, sx: Value -> real, sy: Value -> real, f: Feature)
    requires forall i :: 0 <= i < |kept| ==> HasAxes(kept[i], xLabel, yLabel)
    requires value == BrushedDots(Points(kept, xLabel, yLabel), r, sx, sy)
    ensures f in CrossSelect(kept, value, xLabel, yLabel) ==> f in kept && InBrush(r, sx, sy, DotOf(f, xLabel, yLabel))
  {
    if f in CrossSelect(kept, value, xLabel, yLabel) {
      forall i | 0 <= i < |value| ensures InBrush(r, sx, sy, value[i]) {
        assert value[i] in value;
      }
      CrossMemberIsInside(f, xLabel, yLabel, value, r, sx, sy);
    }
  }

  lemma InsideIsCrossSelected(kept: seq<Feature>, xLabel: string, yLabel: string, value: seq<Dot>,
                              r: Rect, sx: Value -> real, sy: Value -> real, f: Feature)
    requires forall i :: 0 <= i < |kept| ==> HasAxes(kept[i], xLabel, yLabel)
    requires value == BrushedDots(Points(kept, xLabel, yLabel), r, sx, sy)
    requires f in kept && InBrush(r, sx, sy, DotOf(f, xLabel, yLabel))
    ensures f in CrossSelect(kept, value, xLabel, yLabel)
  {
    var j := IndexOf(f, kept);
    InsideIsCrossMember(kept, xLabel, yLabel, value, r, sx, sy, j);
  }

  /** So a brush sends the date selection and the map exactly the plotted
      features whose dots it covers. */
  lemma BrushSelectsExactlyInside(fs: seq<Feature>, xLabel: string, yLabel: string, r: Rect,
                                  sx: Value -> real, sy: Value -> real, f: Feature)
    ensures (f in OnBrush(fs, xLabel, yLabel, true, Some(r), sx, sy).calls[0].features)
        <==> (f in Plottable(fs, xLabel, yLabel) && InBrush(r, sx, sy, DotOf(f, xLabel, yLabel)))
  {
    CrossSelectIsInside(Plottable(fs, xLabel, yLabel), xLabel, yLabel, r, sx, sy, f);
  }
}
