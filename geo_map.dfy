/** The map view (frontend/plots/geo-map.js): the marker and heatmap layers
    that `update` refills, the shared collection of selected map features,
    the click selection and the ctrl-drag box selection that is split into
    one sub-extent per world copy across the antimeridian. */
module GeoMap {
  import opened Wrappers
  import opened JsValues
  import opened Seqs
  import opened Views

  /** A feature object of an OpenLayers vector source: the GeoJSON feature it
      was read from and its projected map coordinates. Every read of GeoJSON
      makes new objects, and selection compares objects, not contents. */
  class MapFeature {
    const source: Feature
    const x: real
    const y: real
    const isPoint: bool

    constructor(source: Feature, x: real, y: real, isPoint: bool)
      ensures this.source == source && this.x == x && this.y == y && this.isPoint == isPoint
    {
      this.source := source;
      this.x := x;
      this.y := y;
      this.isPoint := isPoint;
    }
  }

  /** `new GeoJSON().readFeatures(...)`: one new point object per feature, in
      order, at the feature's projected position. */
  method ReadFeatures(fs: seq<Feature>, project: Point -> (real, real)) returns (r: seq<MapFeature>)
    ensures |r| == |fs|
    ensures forall i :: 0 <= i < |fs| ==>
      r[i].source == fs[i] && (r[i].x, r[i].y) == project(fs[i].geometry) && r[i].isPoint
    ensures forall i :: 0 <= i < |r| ==> fresh(r[i])
    ensures Distinct(r)
  {
    r := [];
    for i := 0 to |fs|
      invariant |r| == i
      invariant forall j :: 0 <= j < i ==>
        r[j].source == fs[j] && (r[j].x, r[j].y) == project(fs[j].geometry) && r[j].isPoint
      invariant forall j :: 0 <= j < i ==> fresh(r[j])
      invariant Distinct(r)
    {
      var p := project(fs[i].geometry);
      var m := new MapFeature(fs[i], p.0, p.1, true);
      r := r + [m];
    }
  }

  /** The features `update` puts on the map: the whole dataset for an empty
      list, otherwise the list itself. */
  function Shown(allData: seq<Feature>, fs: seq<Feature>): seq<Feature> {
    if |fs| == 0 then allData else fs
  }

  /** `update` never blanks a map that has data, and shows exactly the given
      features whenever there are any. */
  lemma ShownNeverBlank(allData: seq<Feature>, fs: seq<Feature>)
    ensures |allData| > 0 ==> |Shown(allData, fs)| > 0
    ensures fs != [] ==> Shown(allData, fs) == fs
    ensures fs == [] ==> Shown(allData, fs) == allData
  {
  }

  /** A box extent `[minX, minY, maxX, maxY]`. */
  datatype Extent = Extent(minX: real, minY: real, maxX: real, maxY: real)

  function Max(a: real, b: real): real { if a >= b then a else b }

  function Min(a: real, b: real): real { if a <= b then a else b }

  /** `worldWidth`: the width of one world copy. */
  function Width(world: Extent): real {
    world.maxX - world.minX
  }

  /** `Math.floor((x - worldExtent[0]) / worldWidth)`: the world copy that
      holds the coordinate `x`. */
  function WorldOf(x: real, world: Extent): (k: int)
    requires world.minX < world.maxX
    ensures world.minX + k as real * Width(world) <= x
    ensures x < world.minX + (k + 1) as real * Width(world)
  {
    FloorOfQuotient(x - world.minX, Width(world));
    ((x - world.minX) / Width(world)).Floor
  }

  /** The floor of `a / w` times `w` is at most `a`, and one more is above it. */
  lemma FloorOfQuotient(a: real, w: real)
    requires w > 0.0
    ensures (a / w).Floor as real * w <= a
    ensures a < ((a / w).Floor + 1) as real * w
  {
    var q := a / w;
    var k := q.Floor;
    assert q * w == a;
    ScaleAtMost(k as real, q, w);
    var up := (k + 1) as real;
    ScaleLess(q, up, w);
    assert a < up * w;
  }

  lemma ScaleAtMost(a: real, b: real, w: real)
    requires w > 0.0 && a <= b
    ensures a * w <= b * w
  {
  }

  lemma ScaleLess(a: real, b: real, w: real)
    requires w > 0.0 && a < b
    ensures a * w < b * w
  {
  }

  /** The part of the box that falls in world copy `k`, shifted back into the
      base world. */
  function SubExtent(box: Extent, world: Extent, k: int): (e: Extent)
    requires world.minX < world.maxX
    ensures world.minX <= e.minX && e.maxX <= world.maxX
    ensures e.minY == box.minY && e.maxY == box.maxY
  {
    var w := Width(world);
    Extent(Max(box.minX - k as real * w, world.minX), box.minY,
           Min(box.maxX - k as real * w, world.maxX), box.maxY)
  }

  /** A point feature inside a closed extent. */
  predicate InExtent(e: Extent, m: MapFeature) {
    e.minX <= m.x <= e.maxX && e.minY <= m.y <= e.maxY
  }

  /** Point `(x, y)` lies in one of the sub-extents of worlds `first..last`. */
  predicate InSomeWorld(x: real, y: real, box: Extent, world: Extent, first: int, last: int)
    requires world.minX < world.maxX
  {
    exists k :: first <= k <= last && InSub(x, y, SubExtent(box, world, k))
  }

  predicate InSub(x: real, y: real, e: Extent) {
    e.minX <= x <= e.maxX && e.minY <= y <= e.maxY
  }

  /** The box covers `x` once shifted by `j` world widths. */
  predicate Wraps(x: real, box: Extent, world: Extent, j: int) {
    box.minX <= x + j as real * Width(world) <= box.maxX
  }

  /** A box that lies inside the base world gives a single sub-extent, the
      box itself. */
  lemma BoxInsideWorld(box: Extent, world: Extent)
    requires world.minX <= box.minX <= box.maxX < world.maxX
    ensures WorldOf(box.minX, world) == 0 && WorldOf(box.maxX, world) == 0
    ensures SubExtent(box, world, 0) == box
  {
    var k1, k2 := WorldOf(box.minX, world), WorldOf(box.maxX, world);
    InBaseWorld(box.minX, world, k1);
    InBaseWorld(box.maxX, world, k2);
  }

  /** A coordinate of the base world lies in world copy 0 only. */
  lemma InBaseWorld(x: real, world: Extent, k: int)
    requires world.minX <= x < world.maxX
    requires world.minX + k as real * Width(world) <= x
    requires x < world.minX + (k + 1) as real * Width(world)
    ensures k == 0
  {
    var w := Width(world);
    NextMultiple(k, w);
    if k >= 1 {
      ScaleAtMost(1.0, k as real, w);
    } else if k <= -1 {
      ScaleAtMost((k + 1) as real, 0.0, w);
    }
  }

  /** One more world width. */
  lemma NextMultiple(k: int, w: real)
    ensures (k + 1) as real * w == k as real * w + w
  {
  }

  /** Splitting the box into worlds `WorldOf(minX)..WorldOf(maxX)` finds
      every point of the base world (left edge included, right edge excluded)
      that the box covers in some world copy, and nothing else. */
  lemma {:induction false} WorldSplitCoversWrappedBox(x: real, y: real, box: Extent, world: Extent)
    requires world.minX < world.maxX
    requires world.minX <= x < world.maxX
    ensures InSomeWorld(x, y, box, world, WorldOf(box.minX, world), WorldOf(box.maxX, world))
        <==> (box.minY <= y <= box.maxY && exists j :: Wraps(x, box, world, j))
  {
    var first := WorldOf(box.minX, world);
    var last := WorldOf(box.maxX, world);
    if InSomeWorld(x, y, box, world, first, last) {
      var k :| first <= k <= last && InSub(x, y, SubExtent(box, world, k));
      assert Wraps(x, box, world, k);
    }
    if box.minY <= y <= box.maxY && exists j :: Wraps(x, box, world, j) {
      var j :| Wraps(x, box, world, j);
      WrappedWorldInRange(x, box, world, j);
      assert InSub(x, y, SubExtent(box, world, j));
    }
  }

  lemma WrappedWorldInRange(x: real, box: Extent, world: Extent, j: int)
    requires world.minX < world.maxX
    requires world.minX <= x < world.maxX
    requires Wraps(x, box, world, j)
    ensures WorldOf(box.minX, world) <= j <= WorldOf(box.maxX, world)
  {
    WorldAtMost(x, box.minX, world.minX, Width(world), j);
    WorldAtLeast(x, box.maxX, world.minX, Width(world), j);
  }

  /** A point `b` at or left of `x + j·w`, with `x` in the base world,
      lies in world copy `j` or an earlier one. */
  lemma WorldAtMost(x: real, b: real, lo: real, w: real, j: int)
    requires w > 0.0 && lo <= x < lo + w && b <= x + j as real * w
    ensures ((b - lo) / w).Floor <= j
  {
    var t := (b - lo) / w;
    var up := (j + 1) as real;
    NextMultiple(j, w);
    assert t * w == b - lo;
    assert t * w < up * w;
    LessByPositiveFactor(t, up, w);
  }

  /** A point `b` at or right of `x + j·w`, with `x` in the base world,
      lies in world copy `j` or a later one. */
  lemma WorldAtLeast(x: real, b: real, lo: real, w: real, j: int)
    requires w > 0.0 && lo <= x && x + j as real * w <= b
    ensures j <= ((b - lo) / w).Floor
  {
    var t := (b - lo) / w;
    assert t * w == b - lo;
    assert j as real * w <= t * w;
    AtMostByPositiveFactor(j as real, t, w);
  }

  lemma LessByPositiveFactor(a: real, b: real, w: real)
    requires w > 0.0 && a * w < b * w
    ensures a < b
  {
  }

  lemma AtMostByPositiveFactor(a: real, b: real, w: real)
    requires w > 0.0 && a * w <= b * w
    ensures a <= b
  {
  }

  /** The markers that world `k` adds to the selection `sel`: those inside
      its sub-extent and not yet selected, in layer order. */
  function WorldFeatures(sel: seq<MapFeature>, markers: seq<MapFeature>, box: Extent, world: Extent, k: int)
    : seq<MapFeature>
    requires world.minX < world.maxX
  {
    Filter(markers, m => m !in sel && InExtent(SubExtent(box, world, k), m))
  }

  /** The selection after worlds `k..last` of a drag box have been processed,
      starting from `sel`. */
  function Sweep(sel: seq<MapFeature>, markers: seq<MapFeature>, box: Extent, world: Extent, k: int, last: int)
    : seq<MapFeature>
    requires world.minX < world.maxX
    decreases last - k + 1
  {
    if k > last then sel
    else Sweep(sel + WorldFeatures(sel, markers, box, world, k), markers, box, world, k + 1, last)
  }

  /** A box never drops or reorders what was already selected. */
  lemma {:induction false} SweepKeepsSelection(sel: seq<MapFeature>, markers: seq<MapFeature>, box: Extent,
                                               world: Extent, k: int, last: int)
    requires world.minX < world.maxX
    ensures var r := Sweep(sel, markers, box, world, k, last);
      |sel| <= |r| && r[..|sel|] == sel
    decreases last - k + 1
  {
    if k <= last {
      var next := sel + WorldFeatures(sel, markers, box, world, k);
      SweepKeepsSelection(next, markers, box, world, k + 1, last);
      assert next[..|sel|] == sel;
    }
  }

  /** A feature already selected is never added again, so a selection
      without repeats stays without repeats. */
  lemma {:induction false} SweepNoRepeats(sel: seq<MapFeature>, markers: seq<MapFeature>, box: Extent,
                                          world: Extent, k: int, last: int)
    requires world.minX < world.maxX
    requires Distinct(sel) && Distinct(markers)
    ensures Distinct(Sweep(sel, markers, box, world, k, last))
    decreases last - k + 1
  {
    if k <= last {
      var added := WorldFeatures(sel, markers, box, world, k);
      FilterDistinct(markers, m => m !in sel && InExtent(SubExtent(box, world, k), m));
      var next := sel + added;
      forall i, j | 0 <= i < j < |next|
        ensures next[i] != next[j]
      {
        if j >= |sel| && i < |sel| {
          assert next[j] == added[j - |sel|];
          assert next[j] !in sel;
        }
        if i >= |sel| {
          assert next[i] == added[i - |sel|] && next[j] == added[j - |sel|];
        }
      }
      SweepNoRepeats(next, markers, box, world, k + 1, last);
    }
  }

  predicate InWorlds(m: MapFeature, box: Extent, world: Extent, first: int, last: int)
    requires world.minX < world.maxX
  {
    exists k :: first <= k <= last && InExtent(SubExtent(box, world, k), m)
  }

  /** After the sweep, a feature is selected exactly when it was selected
      before or it is a marker inside one of the worlds' sub-extents. */
  lemma {:induction false} SweepMembers(sel: seq<MapFeature>, markers: seq<MapFeature>, box: Extent,
                                        world: Extent, k: int, last: int, m: MapFeature)
    requires world.minX < world.maxX
    ensures (m in Sweep(sel, markers, box, world, k, last))
        <==> (m in sel || (m in markers && InWorlds(m, box, world, k, last)))
    decreases last - k + 1
  {
    if k <= last {
      var added := WorldFeatures(sel, markers, box, world, k);
      var next := sel + added;
      SweepMembers(next, markers, box, world, k + 1, last, m);
      if m in markers && InWorlds(m, box, world, k, last) && m !in sel {
        var j :| k <= j <= last && InExtent(SubExtent(box, world, j), m);
        if j == k {
          assert m in added;
        } else {
          assert InWorlds(m, box, world, k + 1, last);
        }
      }
      if m in next && m !in sel {
        assert m in added;
        assert InWorlds(m, box, world, k, last);
      }
      if InWorlds(m, box, world, k + 1, last) {
        var j :| k + 1 <= j <= last && InExtent(SubExtent(box, world, j), m);
        assert InWorlds(m, box, world, k, last);
      }
    }
  }

  /** `selectedFeatures.getArray().map(f => f.get(key))`. */
  function SelectedColumn(sel: seq<MapFeature>, key: string): (r: seq<Option<Value>>)
  {
    seq(|sel|, i requires 0 <= i < |sel| => Get(sel[i].source.properties, key))
  }

  /** The dataset features whose x value is among the selected features' x
      values and whose y value is among their y values. */
  function BoxData(allData: seq<Feature>, sel: seq<MapFeature>, xLabel: string, yLabel: string): (r: seq<Feature>)
    ensures IsSubsequence(r, allData)
    ensures forall d :: d in r <==>
      (d in allData
       && Get(d.properties, xLabel) in SelectedColumn(sel, xLabel)
       && Get(d.properties, yLabel) in SelectedColumn(sel, yLabel))
  {
    Filter(allData, (d: Feature) => Get(d.properties, xLabel) in SelectedColumn(sel, xLabel)
                         && Get(d.properties, yLabel) in SelectedColumn(sel, yLabel))
  }

  /** Every dataset feature that agrees with a selected feature on both axis
      attributes is part of the box result; in particular the features the
      selected markers were read from. */
  lemma BoxDataHasSelectedPairs(allData: seq<Feature>, sel: seq<MapFeature>, xLabel: string, yLabel: string,
                                d: Feature, i: int)
    requires d in allData && 0 <= i < |sel|
    requires Get(d.properties, xLabel) == Get(sel[i].source.properties, xLabel)
    requires Get(d.properties, yLabel) == Get(sel[i].source.properties, yLabel)
    ensures d in BoxData(allData, sel, xLabel, yLabel)
  {
    assert SelectedColumn(sel, xLabel)[i] == Get(d.properties, xLabel);
    assert SelectedColumn(sel, yLabel)[i] == Get(d.properties, yLabel);
  }

  /** The point features among the clicked ones. */
  function PointsOnly(ms: seq<MapFeature>): (r: seq<MapFeature>)
    ensures IsSubsequence(r, ms)
    ensures forall i :: 0 <= i < |r| ==> r[i] in ms && r[i].isPoint
    ensures forall i :: 0 <= i < |ms| && ms[i].isPoint ==> ms[i] in r
  {
    Filter(ms, (m: MapFeature) => m.isPoint)
  }

  predicate FirstWithIdAt(fs: seq<Feature>, id: Option<Value>, f: Feature) {
    exists i :: 0 <= i < |fs| && fs[i] == f && Get(f.properties, "Id") == id
      && forall j :: 0 <= j < i ==> Get(fs[j].properties, "Id") != id
  }

  /** `fs.filter(d => d.properties.Id === id)[0]`; `None` is `undefined`. */
  function FirstWithId(fs: seq<Feature>, id: Option<Value>): (r: Option<Feature>)
    ensures r.None? <==> forall i :: 0 <= i < |fs| ==> Get(fs[i].properties, "Id") != id
    ensures r.Some? ==> FirstWithIdAt(fs, id, r.value)
  {
    if fs == [] then None
    else if Get(fs[0].properties, "Id") == id then Some(fs[0])
    else
      var r := FirstWithId(fs[1..], id);
      assert forall i :: 1 <= i < |fs| ==> fs[i] == fs[1..][i - 1];
      assert r.Some? ==> FirstWithIdAt(fs, id, r.value) by {
        if r.Some? {
          var i :| 0 <= i < |fs[1..]| && fs[1..][i] == r.value && Get(r.value.properties, "Id") == id
            && forall j :: 0 <= j < i ==> Get(fs[1..][j].properties, "Id") != id;
          assert fs[i + 1] == r.value;
          assert forall j :: 0 <= j < i + 1 ==> Get(fs[j].properties, "Id") != id;
        }
      }
      r
  }

  /** The calls the `select` handler makes after a click has replaced the
      selection with `picked`. */
  function SelectCalls(allData: seq<Feature>, tsunamis: seq<Feature>, picked: seq<MapFeature>,
                       xLabel: string, yLabel: string): (r: Result<seq<ViewCall>>)
    ensures r.Throws? <==>
      PointsOnly(picked) != [] && FirstWithId(allData, Get(PointsOnly(picked)[0].source.properties, "Id")).None?
    ensures r.Ok? ==>
      |r.value| == 3 && r.value[0].DetailUpdate? && r.value[0].selection.SelectedArray?
      && r.value[0].tsunamis == tsunamis && r.value[1].DateSelectionUpdate?
      && r.value[2].ScatterUpdate? && r.value[2].features == allData
    ensures r.Ok? && PointsOnly(picked) != [] ==>
      |r.value[0].selection.items| == 1 && r.value[0].selection.items[0] in allData
      && r.value[1] == DateSelectionUpdate(r.value[0].selection.items)
  {
    var pts := PointsOnly(picked);
    if |pts| == 0 then
      Ok([DetailUpdate(SelectedArray([]), tsunamis),
          DateSelectionUpdate(allData),
          ScatterUpdate(allData, ActionUndefined, xLabel, yLabel)])
    else
      match FirstWithId(allData, Get(pts[0].source.properties, "Id"))
      case None =>
        // the detail panel reads `.properties` of `undefined`
        Throws("Cannot read properties of undefined (reading 'properties')")
      case Some(p) =>
        Ok([DetailUpdate(SelectedArray([p]), tsunamis),
            DateSelectionUpdate([p]),
            ScatterUpdate(allData, ActionFeatures([p]), xLabel, yLabel)])
  }

  /** A click that leaves no point selected (on empty map, after something
      had been selected) resets the date and scatter views to the whole
      dataset and clears the detail panel. */
  lemma SelectNothingResets(allData: seq<Feature>, tsunamis: seq<Feature>, picked: seq<MapFeature>,
                            xLabel: string, yLabel: string)
    requires forall i :: 0 <= i < |picked| ==> !picked[i].isPoint
    ensures SelectCalls(allData, tsunamis, picked, xLabel, yLabel)
         == Ok([DetailUpdate(SelectedArray([]), tsunamis), DateSelectionUpdate(allData),
                ScatterUpdate(allData, ActionUndefined, xLabel, yLabel)])
  {
  }

  /** A click on a marker read from the dataset succeeds and shows, in all
      three views, the first dataset feature with the clicked marker's Id. */
  lemma SelectMarkerShowsFirstWithId(allData: seq<Feature>, tsunamis: seq<Feature>, picked: seq<MapFeature>,
                                     xLabel: string, yLabel: string)
    requires |PointsOnly(picked)| > 0 && PointsOnly(picked)[0].source in allData
    ensures var r := SelectCalls(allData, tsunamis, picked, xLabel, yLabel);
      var id := Get(PointsOnly(picked)[0].source.properties, "Id");
      r.Ok? && r.value[0].DetailUpdate? && r.value[0].selection.SelectedArray?
      && |r.value[0].selection.items| == 1
      && FirstWithIdAt(allData, id, r.value[0].selection.items[0])
      && r.value[1] == DateSelectionUpdate(r.value[0].selection.items)
      && r.value[2] == ScatterUpdate(allData, ActionFeatures(r.value[0].selection.items), xLabel, yLabel)
  {
    var m := PointsOnly(picked)[0];
    var i :| 0 <= i < |allData| && allData[i] == m.source;
    assert Get(allData[i].properties, "Id") == Get(m.source.properties, "Id");
  }

  /** The select interaction's collection after a plain click that finds
      `picked` under the pointer: selected features found again keep their
      place, the other selected ones are deselected, and newly found ones
      are appended. */
  function AfterClick(prev: seq<MapFeature>, picked: seq<MapFeature>): seq<MapFeature> {
    Filter(prev, m => m in picked) + Filter(picked, m => m !in prev)
  }

  /** Whether the click deselects or newly selects some feature, the
      condition under which the interaction dispatches 'select'. */
  predicate SelectionChanges(prev: seq<MapFeature>, picked: seq<MapFeature>) {
    (exists i :: 0 <= i < |prev| && prev[i] !in picked)
    || (exists i :: 0 <= i < |picked| && picked[i] !in prev)
  }

  /** After a click exactly the features under the pointer are selected. */
  lemma AfterClickMembers(prev: seq<MapFeature>, picked: seq<MapFeature>)
    ensures forall m :: m in AfterClick(prev, picked) <==> m in picked
  {
    forall m | m in picked
      ensures m in AfterClick(prev, picked)
    {
      var i :| 0 <= i < |picked| && picked[i] == m;
      if m in prev {
        var j :| 0 <= j < |prev| && prev[j] == m;
        assert prev[j] in Filter(prev, m => m in picked);
      } else {
        assert picked[i] in Filter(picked, m => m !in prev);
      }
    }
  }

  /** 'select' is dispatched iff the set of selected features changes. */
  lemma SelectFiresIffSetChanges(prev: seq<MapFeature>, picked: seq<MapFeature>)
    ensures !SelectionChanges(prev, picked) <==> forall m :: m in prev <==> m in picked
  {
    if !SelectionChanges(prev, picked) {
      forall m ensures m in prev <==> m in picked {
        if m in prev {
          var i :| 0 <= i < |prev| && prev[i] == m;
        }
        if m in picked {
          var i :| 0 <= i < |picked| && picked[i] == m;
        }
      }
    }
  }

  /** A click that changes nothing leaves the collection as it was. */
  lemma {:induction false} UnchangedClickKeepsCollection(prev: seq<MapFeature>, picked: seq<MapFeature>)
    requires !SelectionChanges(prev, picked)
    ensures AfterClick(prev, picked) == prev
  {
    KeepAllFiltered(prev, picked);
    DropAllFiltered(picked, prev);
  }

  lemma {:induction false} KeepAllFiltered(xs: seq<MapFeature>, keep: seq<MapFeature>)
    requires forall i :: 0 <= i < |xs| ==> xs[i] in keep
    ensures Filter(xs, m => m in keep) == xs
  {
    if xs != [] {
      KeepAllFiltered(xs[1..], keep);
    }
  }

  lemma {:induction false} DropAllFiltered(xs: seq<MapFeature>, known: seq<MapFeature>)
    requires forall i :: 0 <= i < |xs| ==> xs[i] in known
    ensures Filter(xs, m => m !in known) == []
  {
    if xs != [] {
      DropAllFiltered(xs[1..], known);
    }
  }

  /** The map view's state: the dataset it was rendered with, the features
      of the marker and heatmap layers, and the shared collection of selected
      map features that clicks replace and drag boxes extend. */
  class MapView {
    const allData: seq<Feature>
    const tsunamis: seq<Feature>
    const project: Point -> (real, real)
    var markers: seq<MapFeature>
    var heat: seq<MapFeature>
    var selected: seq<MapFeature>

    ghost predicate Valid()
      reads this
    {
      Distinct(markers)
    }

    /** `render`: both layers read the dataset, each into its own objects. */
    constructor(data: seq<Feature>, tsunamis: seq<Feature>, project: Point -> (real, real))
      ensures Valid()
      ensures allData == data && this.tsunamis == tsunamis && this.project == project
      ensures |markers| == |data| && forall i :: 0 <= i < |data| ==>
        markers[i].source == data[i] && (markers[i].x, markers[i].y) == project(data[i].geometry) && markers[i].isPoint
      ensures |heat| == |data| && forall i :: 0 <= i < |data| ==>
        heat[i].source == data[i] && (heat[i].x, heat[i].y) == project(data[i].geometry) && heat[i].isPoint
      ensures selected == []
    {
      var m := ReadFeatures(data, project);
      var h := ReadFeatures(data, project);
      allData := data;
      this.tsunamis := tsunamis;
      this.project := project;
      markers := m;
      heat := h;
      selected := [];
    }

    /** `update(plots, [features])`: both layers are cleared and refilled
        with the same new objects for the shown features. */
    method Update(fs: seq<Feature>)
      requires Valid()
      modifies this
      ensures Valid()
      ensures var shown := Shown(allData, fs);
        |markers| == |shown| && forall i :: 0 <= i < |shown| ==>
          markers[i].source == shown[i] && (markers[i].x, markers[i].y) == project(shown[i].geometry) && markers[i].isPoint
      ensures forall m :: m in markers ==> fresh(m) && m !in old(markers) && m !in old(heat)
      ensures heat == markers
      ensures selected == old(selected)
    {
      var features := ReadFeatures(Shown(allData, fs), project);
      markers := features;
      heat := features;
    }

    /** `boxstart`: a new drag box clears the selection. */
    method BoxStart()
      modifies this`selected
      ensures selected == []
    {
      selected := [];
    }

    /** A click. The select interaction (a plain click, `multi` off)
        rebuilds the shared collection from the features under the pointer
        and dispatches 'select' only when that selects or deselects
        something; the handler then updates the other views from the
        collection. */
    method OnSelect(picked: seq<MapFeature>, xLabel: string, yLabel: string) returns (r: Result<seq<ViewCall>>)
      modifies this`selected
      ensures selected == AfterClick(old(selected), picked)
      ensures SelectionChanges(old(selected), picked) ==>
        r == SelectCalls(allData, tsunamis, selected, xLabel, yLabel)
      ensures !SelectionChanges(old(selected), picked) ==> r == Ok([]) && selected == old(selected)
    {
      var changed := SelectionChanges(selected, picked);
      if changed {
        selected := AfterClick(selected, picked);
        r := SelectCalls(allData, tsunamis, selected, xLabel, yLabel);
      } else {
        UnchangedClickKeepsCollection(selected, picked);
        selected := AfterClick(selected, picked);
        r := Ok([]);
      }
    }

    /** `boxend` on an unrotated view: every world copy the box reaches adds
        its not yet selected markers, then the features matching the
        selection on both axes go to the scatterplot, the date selection and
        the detail panel. */
    method BoxEnd(box: Extent, world: Extent, xLabel: string, yLabel: string) returns (calls: seq<ViewCall>)
      requires Valid() && world.minX < world.maxX
      modifies this`selected
      ensures selected == Sweep(old(selected), markers, box, world, WorldOf(box.minX, world), WorldOf(box.maxX, world))
      ensures var data := BoxData(allData, selected, xLabel, yLabel);
        calls == [ScatterUpdate(allData, ActionFeatures(data), xLabel, yLabel),
                  DateSelectionUpdate(data),
                  DetailUpdate(SelectedArray(data), tsunamis)]
    {
      var first := WorldOf(box.minX, world);
      var last := WorldOf(box.maxX, world);
      var k := first;
      while k <= last
        invariant k <= last + 1 || k == first
        invariant Sweep(selected, markers, box, world, k, last)
               == Sweep(old(selected), markers, box, world, first, last)
        decreases last - k + 1
      {
        var boxFeatures := WorldFeatures(selected, markers, box, world, k);
        selected := selected + boxFeatures;
        k := k + 1;
      }
      var data := BoxData(allData, selected, xLabel, yLabel);
      calls := [ScatterUpdate(allData, ActionFeatures(data), xLabel, yLabel),
                DateSelectionUpdate(data),
                DetailUpdate(SelectedArray(data), tsunamis)];
    }
  }
}
