/** Marker styling for the map (frontend/plots/geo-map-styling.js): the
    memoised country palette, the colour and size scales with their
    fallbacks, the legend radii and the legend sections. Colours that the
    source computes by floating-point arithmetic (`rgba` ramps) and the
    logarithmic radii stay symbolic. */
module GeoMapStyling {
  import opened Wrappers
  import opened JsValues
  import opened Seqs

  /** The 60-colour country palette. */
  const CountryColors: seq<string> := [
    "#e6194b", "#3cb44b", "#ffe119", "#0082c8", "#f58231", "#911eb4",
    "#46f0f0", "#f032e6", "#d2f53c", "#fabebe", "#008080", "#e6beff",
    "#aa6e28", "#fffac8", "#800000", "#aaffc3", "#808000", "#ffd8b1",
    "#000080", "#808080", "#3c1a1a", "#e41a1c", "#377eb8", "#4daf4a",
    "#984ea3", "#ff7f00", "#ffff33", "#a65628", "#f781bf", "#999999",
    "#66c2a5", "#fc8d62", "#8da0cb", "#e78ac3", "#a6d854", "#ffd92f",
    "#e5c494", "#b3b3b3", "#1b9e77", "#d95f02", "#7570b3", "#e7298a",
    "#66a61e", "#e6ab02", "#a6761d", "#666666", "#d53e4f", "#f46d43",
    "#fdae61", "#fee08b", "#e6f598", "#abdda4", "#66c2a5", "#3288bd",
    "#5e4fa2", "#1b7837", "#762a83", "#e7d4e8", "#d9f0d3", "#f7f7f7"
  ]

  const NoCountryColor := "#cccccc"
  const Grey := "#888888"
  const TsunamiBlue := "rgba(0, 0, 255, 0.7)"

  /** The five-step palette of the description attributes. */
  const DescriptionColors: seq<string> := ["#88cc88", "#ffcc00", "#ff9933", "#ff6666", "#cc0000"]

  const DescriptionProps: seq<string> := [
    "Total Death Description", "Total Injuries Description", "Total Damage Description",
    "Total Houses Destroyed Description", "Total Houses Damaged Description"
  ]

  /** The palette has 60 entries and repeats entry 30 as entry 52, so the
      31st and the 53rd country share a colour. */
  lemma PaletteRepeat()
    ensures |CountryColors| == 60
    ensures CountryColors[30] == CountryColors[52]
  {
  }

  /** The memoised country palette: `memo` is `countryColorMap` and
      `colorIndex` counts the countries seen so far; `order` lists them in the
      order they were first seen. */
  class CountryPalette {
    var memo: map<Value, string>
    var colorIndex: nat
    ghost var order: seq<Value>

    /** The k-th country seen gets palette entry k mod 60. */
    ghost predicate Valid()
      reads this
    {
      colorIndex == |order| && Distinct(order)
      && (forall v :: v in memo <==> v in order)
      && (forall k :: 0 <= k < |order| ==> order[k] in memo && memo[order[k]] == CountryColors[k % 60])
    }

    constructor()
      ensures Valid() && memo == map[] && colorIndex == 0
    {
      memo := map[];
      colorIndex := 0;
      order := [];
    }

    /** `getCountryColor(country)`. */
    method CountryColor(country: Option<Value>) returns (c: string)
      requires Valid()
      modifies this
      ensures Valid()
      ensures !Truthy(country) ==>
        c == NoCountryColor && memo == old(memo) && colorIndex == old(colorIndex)
      ensures Truthy(country) && country.value in old(memo) ==>
        c == old(memo)[country.value] && memo == old(memo) && colorIndex == old(colorIndex)
      ensures Truthy(country) && country.value !in old(memo) ==>
        c == CountryColors[old(colorIndex) % 60] && colorIndex == old(colorIndex) + 1
        && memo == old(memo)[country.value := c] && order == old(order) + [country.value]
    {
      if !Truthy(country) {
        return NoCountryColor;
      }
      var key := country.value;
      if key !in memo {
        // every stored colour is a non-empty string, so `!countryColorMap[country]`
        // holds exactly for a country seen for the first time
        PaletteRepeat();
        ghost var seen := order;
        memo := memo[key := CountryColors[colorIndex % |CountryColors|]];
        order := order + [key];
        colorIndex := colorIndex + 1;
        assert forall k :: 0 <= k < |seen| ==> order[k] == seen[k] && order[k] != key;
      }
      c := memo[key];
    }
  }

  /** Asking twice for the same country gives the same colour, and only the
      first request of a new country advances the index. */
  method SameCountrySameColour(p: CountryPalette, country: Option<Value>) returns (first: string, second: string)
    requires p.Valid()
    modifies p
    ensures p.Valid()
    ensures first == second
    ensures Truthy(country) && country.value !in old(p.memo) ==> p.colorIndex == old(p.colorIndex) + 1
    ensures !(Truthy(country) && country.value !in old(p.memo)) ==> p.colorIndex == old(p.colorIndex)
  {
    first := p.CountryColor(country);
    second := p.CountryColor(country);
  }

  /** A fill colour: a literal CSS colour, one of the two arithmetic ramps
      (kept symbolic), or `undefined`. */
  datatype Color =
    | Css(text: string)
    | MagRamp(mag: Value)           // `rgba(255, 255 - mag*25, 0, 0.7)`
    | MmiRamp(intensity: Value)     // `rgba(255, 255 - mmi*20, mmi*20, 0.7)`
    | NoColor

  /** `[...][value]` on the five-colour description palette: a number or
      numeral string naming an index 0..4. */
  function DescriptionIndex(v: Value): (r: Option<nat>)
    ensures r.Some? ==> r.value < 5
    ensures r.Some? ==> v == Num(r.value as real) || v == Text(Decimal.ShowNat(r.value))
  {
    match v
    case Num(n) =>
      if n == 0.0 then Some(0) else if n == 1.0 then Some(1) else if n == 2.0 then Some(2)
      else if n == 3.0 then Some(3) else if n == 4.0 then Some(4) else None
    case Text(s) =>
      if s == "0" then Some(0) else if s == "1" then Some(1) else if s == "2" then Some(2)
      else if s == "3" then Some(3) else if s == "4" then Some(4) else None
  }

  /** The colour scales other than the country palette; `None` for the
      colour property means the feature has no such attribute. */
  function ColorScale(prop: string, v: Option<Value>): (c: Color)
    requires prop != "Country"
    ensures !Truthy(v) ==> c == Css(Grey)
    ensures prop != "Tsu" && prop != "Mag" && prop != "MMI Int" && prop !in DescriptionProps ==> c == Css(Grey)
    ensures prop == "Tsu" ==> (c == Css(TsunamiBlue) <==> Truthy(v)) && (c == Css(Grey) <==> !Truthy(v))
    ensures c.MagRamp? ==> prop == "Mag" && Some(c.mag) == v
    ensures c.MmiRamp? ==> prop == "MMI Int" && Some(c.intensity) == v
    ensures prop in DescriptionProps && Truthy(v) ==>
      (c.NoColor? <==> DescriptionIndex(v.value).None?)
      && (DescriptionIndex(v.value).Some? ==> c == Css(DescriptionColors[DescriptionIndex(v.value).value]))
  {
    if prop == "Tsu" then (if Truthy(v) then Css(TsunamiBlue) else Css(Grey))
    else if prop == "Mag" then (if Truthy(v) then MagRamp(v.value) else Css(Grey))
    else if prop == "MMI Int" then (if Truthy(v) then MmiRamp(v.value) else Css(Grey))
    else if prop in DescriptionProps then
      if !Truthy(v) then Css(Grey)
      else match DescriptionIndex(v.value)
        case Some(i) => Css(DescriptionColors[i])
        case None => NoColor
    else Css(Grey)
  }

  /** A marker radius: a number, `Math.log(value + 1) * factor` kept
      symbolic, or NaN. */
  datatype Radius = Px(r: real) | LogRadius(factor: real, value: Value) | NotANumber

  const LogSizeProps: seq<string> := [
    "Total Deaths", "Total Injuries", "Total Damage ($Mil)", "Total Houses Destroyed", "Total Houses Damaged"
  ]

  /** `value * 1.5` with JavaScript's conversion of the value to a number. */
  function Scaled(v: Value): (r: Radius)
    ensures v.Num? ==> r == Px(v.n * 3.0 / 2.0)
  {
    match ToNumber(Some(v))
    case Some(n) => Px(n * 3.0 / 2.0)
    case None => NotANumber
  }

  /** The size scales; an unknown size property and a falsy value give the
      default radius 1. */
  function SizeScale(prop: string, v: Option<Value>): (r: Radius)
    ensures !Truthy(v) ==> r == Px(1.0)
    ensures prop != "Mag" && prop != "MMI Int" && prop != "Focal Depth (km)" && prop !in LogSizeProps
      ==> r == Px(1.0)
    ensures (prop == "Mag" || prop == "MMI Int") && Truthy(v) ==> r == Scaled(v.value)
  {
    if !Truthy(v) then Px(1.0)
    else if prop == "Mag" || prop == "MMI Int" then Scaled(v.value)
    else if prop == "Focal Depth (km)" then LogRadius(3.0, v.value)
    else if prop in LogSizeProps then LogRadius(2.0, v.value)
    else Px(1.0)
  }

  /** `getStyle(feature, colorProperty, sizeProperty)`: the fill colour and
      the radius of a marker; only the country scale touches the palette. */
  method GetStyle(palette: CountryPalette, props: seq<Prop>, colorProp: string, sizeProp: string)
    returns (fill: Color, radius: Radius)
    requires palette.Valid()
    modifies palette
    ensures palette.Valid()
    ensures radius == SizeScale(sizeProp, Get(props, sizeProp))
    ensures colorProp != "Country" ==>
      fill == ColorScale(colorProp, Get(props, colorProp))
      && palette.memo == old(palette.memo) && palette.colorIndex == old(palette.colorIndex)
    ensures colorProp == "Country" && !Truthy(Get(props, colorProp)) ==>
      fill == Css(NoCountryColor) && palette.memo == old(palette.memo) && palette.colorIndex == old(palette.colorIndex)
    ensures colorProp == "Country" && Truthy(Get(props, colorProp)) && Get(props, colorProp).value in old(palette.memo) ==>
      fill == Css(old(palette.memo)[Get(props, colorProp).value])
      && palette.memo == old(palette.memo) && palette.colorIndex == old(palette.colorIndex)
    ensures colorProp == "Country" && Truthy(Get(props, colorProp)) && Get(props, colorProp).value !in old(palette.memo) ==>
      fill == Css(CountryColors[old(palette.colorIndex) % 60])
      && palette.colorIndex == old(palette.colorIndex) + 1
      && palette.memo == old(palette.memo)[Get(props, colorProp).value := fill.text]
  {
    var value := Get(props, colorProp);
    if colorProp == "Country" {
      var c := palette.CountryColor(value);
      fill := Css(c);
    } else {
      fill := ColorScale(colorProp, value);
    }
    radius := SizeScale(sizeProp, Get(props, sizeProp));
  }

  /** Two markers of the same country are filled alike, whichever is styled
      first, and whatever other properties they carry. */
  method SameCountrySameFill(palette: CountryPalette, a: seq<Prop>, b: seq<Prop>, sizeProp: string)
    returns (fa: Color, fb: Color)
    requires palette.Valid()
    requires Get(a, "Country") == Get(b, "Country")
    modifies palette
    ensures palette.Valid()
    ensures fa == fb && fa.Css?
  {
    var ra, rb;
    fa, ra := GetStyle(palette, a, "Country", sizeProp);
    fb, rb := GetStyle(palette, b, "Country", sizeProp);
  }

  /** One size-legend sample: the text 'Unknown' or a number. */
  datatype Sample = UnknownSample | SampleNum(n: int)

  /** `computeRadius(sizeProp, value)` for the legend. */
  function ComputeRadius(prop: string, sample: Sample): Radius {
    match sample
    case UnknownSample => Px(1.0)
    case SampleNum(n) =>
      if prop == "Mag" || prop == "MMI Int" then (if n != 0 then Px(n as real * 3.0 / 2.0) else Px(1.0))
      else if prop == "Focal Depth (km)" then (if n != 0 then LogRadius(3.0, Num(n as real)) else Px(1.0))
      else if prop in LogSizeProps then (if n != 0 then LogRadius(2.0, Num(n as real)) else Px(1.0))
      else Px(1.0)
  }

  /** The legend radii agree with the markers: a numeric sample is drawn at
      the radius of a feature with that value, and 'Unknown' at the radius of
      a feature without the attribute. */
  lemma LegendRadiusMatchesMarkers(prop: string, sample: Sample)
    ensures sample.SampleNum? ==> ComputeRadius(prop, sample) == SizeScale(prop, Some(Num(sample.n as real)))
    ensures sample.UnknownSample? ==> ComputeRadius(prop, sample) == SizeScale(prop, None)
  {
  }

  /** `sizeSamples[prop]`. */
  function SizeSamples(prop: string): Option<seq<Sample>> {
    if prop == "Mag" || prop == "MMI Int" then
      Some([UnknownSample, SampleNum(2), SampleNum(5), SampleNum(7), SampleNum(9)])
    else if prop == "Focal Depth (km)" then
      Some([UnknownSample, SampleNum(10), SampleNum(50), SampleNum(100), SampleNum(300)])
    else if prop in LogSizeProps then
      Some([UnknownSample, SampleNum(10), SampleNum(100), SampleNum(1000), SampleNum(10000)])
    else None
  }

  /** Every size legend has five samples, 'Unknown' first and then numbers
      in increasing order; it exists exactly for the properties that have a
      size scale. */
  lemma SizeSamplesShape(prop: string)
    ensures SizeSamples(prop).Some? <==> prop == "Mag" || prop == "MMI Int" || prop == "Focal Depth (km)" || prop in LogSizeProps
    ensures SizeSamples(prop).Some? ==>
      var s := SizeSamples(prop).value;
      |s| == 5 && s[0] == UnknownSample
      && (forall i :: 1 <= i < 5 ==> s[i].SampleNum? && s[i].n > 0)
      && (forall i, j :: 1 <= i < j < 5 ==> s[i].n < s[j].n)
  {
  }

  /** `colorMapping[prop]`: the legend entries (label, colour). */
  function ColorMapping(prop: string): Option<seq<(string, string)>> {
    if prop == "Tsu" then
      Some([("No Tsunami", Grey), ("Tsunami", TsunamiBlue)])
    else if prop == "Mag" then
      // these four colours are written as plain strings, not computed
      Some([("Magnitude 2", "rgba(255, 255 - 2*25, 0, 0.7)"), ("Magnitude 5", "rgba(255, 255 - 5*25, 0, 0.7)"),
            ("Magnitude 7", "rgba(255, 255 - 7*25, 0, 0.7)"), ("Magnitude 9+", "rgba(255, 255 - 9*25, 0, 0.7)"),
            ("Unknown", Grey)])
    else if prop == "MMI Int" then
      Some([("Intensity 2", "rgba(255, 215, 40, 0.7)"), ("Intensity 5", "rgba(255, 155, 100, 0.7)"),
            ("Intensity 7", "rgba(255, 115, 140, 0.7)"), ("Intensity 9+", "rgba(255, 75, 180, 0.7)"),
            ("Unknown", Grey)])
    else if prop in DescriptionProps then
      Some(DescriptionLegend(DescriptionLabels(prop)))
    else None
  }

  /** The five legend labels of a description attribute. */
  function DescriptionLabels(prop: string): (r: seq<string>)
    requires prop in DescriptionProps
    ensures |r| == 5
  {
    if prop == "Total Death Description" then
      ["None", "Few (~1 to 50 deaths)", "Some (~51 to 100 deaths)",
       "Many (~101 to 1000 deaths)", "Very many (over 1000 deaths)"]
    else if prop == "Total Injuries Description" then
      ["None", "Few (~1 to 50 injuries)", "Some(~51 to 100 injuries)",
       "Many (~101 to 1000 injuries)", "Very many (over 1000 injuries)"]
    else if prop == "Total Damage Description" then
      ["None", "Limited (<$1 million)", "Moderate (~$1 to $5 million)",
       "Severe (~$5 to $25 million)", "Extreme (~$25 million or more)"]
    else if prop == "Total Houses Destroyed Description" then
      ["None", "Few (~1 to 50 houses)", "Some (~51 to 100 houses)",
       "Many (~101 to 1000 houses)", "Very many (over 1000 houses)"]
    else
      ["None", "Few (~1 to 50 houses)", "Some (~51 to 100 houses)",
       "Many (~101 to 1000 houses)", "Very many (over 1000 houses)"]
  }

  /** Five description labels paired with the five-colour palette, then
      'Unknown' in grey. */
  function DescriptionLegend(labels: seq<string>): (r: seq<(string, string)>)
    requires |labels| == 5
  {
    seq(5, i requires 0 <= i < 5 => (labels[i], DescriptionColors[i])) + [("Unknown", Grey)]
  }

  /** Whatever its labels, a description legend pairs the five palette
      colours in order and ends with grey. */
  lemma DescriptionLegendColours(labels: seq<string>)
    requires |labels| == 5
    ensures |DescriptionLegend(labels)| == 6 && DescriptionLegend(labels)[5].1 == Grey
    ensures forall i :: 0 <= i < 5 ==> DescriptionLegend(labels)[i].1 == DescriptionColors[i]
  {
  }

  /** Each description attribute's legend has that shape. */
  lemma DescriptionMapping(prop: string)
    requires prop in DescriptionProps
    ensures ColorMapping(prop).Some? && |ColorMapping(prop).value| == 6
    ensures ColorMapping(prop).value[5].1 == Grey
    ensures forall i :: 0 <= i < 5 ==> ColorMapping(prop).value[i].1 == DescriptionColors[i]
  {
    assert prop != "Tsu" && prop != "Mag" && prop != "MMI Int";
    var labels := DescriptionLabels(prop);
    assert ColorMapping(prop) == Some(DescriptionLegend(labels));
    DescriptionLegendColours(labels);
  }

  /** A description code 0..4 given as a number names that palette index. */
  lemma CodeIndex(k: nat)
    requires k < 5
    ensures DescriptionIndex(Num(k as real)) == Some(k)
  {
  }

  /** Every description attribute has a colour legend, and the colour
      scales agree with it for Tsu and for description codes 1..4. */
  lemma ColourLegendMatchesMarkers(prop: string, k: nat)
    requires prop in DescriptionProps && 1 <= k < 5
    ensures ColorMapping(prop).Some? && |ColorMapping(prop).value| == 6
    ensures ColorScale(prop, Some(Num(k as real))) == Css(ColorMapping(prop).value[k].1)
    ensures ColorScale(prop, None) == Css(ColorMapping(prop).value[5].1)
    ensures ColorScale("Tsu", None) == Css(ColorMapping("Tsu").value[0].1)
    ensures ColorScale("Tsu", Some(Num(k as real))) == Css(ColorMapping("Tsu").value[1].1)
  {
    DescriptionMapping(prop);
    CodeIndex(k);
  }

  /** As written, a description code of 0 is falsy and its marker is drawn
      grey, while the legend shows code 0 ('None') in green. */
  lemma DescriptionZeroIsGrey(prop: string)
    requires prop in DescriptionProps
    ensures ColorScale(prop, Some(Num(0.0))) == Css(Grey)
    ensures ColorMapping(prop).Some? && ColorMapping(prop).value[0].1 == "#88cc88" != Grey
  {
    DescriptionMapping(prop);
  }

  /** The description scale as the legend describes it: a missing attribute
      is grey ('Unknown'), codes 0..4 index the palette. */
  function IntendedDescriptionColor(v: Option<Value>): (c: Color)
    ensures v.None? ==> c == Css(Grey)
  {
    match v
    case None => Css(Grey)
    case Some(x) =>
      match DescriptionIndex(x)
      case Some(i) => Css(DescriptionColors[i])
      case None => NoColor
  }

  /** With the intended scale every legend entry of a description attribute,
      code 0 included, is the colour of the markers it describes. */
  lemma IntendedDescriptionMatchesLegend(prop: string, k: nat)
    requires prop in DescriptionProps && k < 5
    ensures ColorMapping(prop).Some? && |ColorMapping(prop).value| == 6
    ensures IntendedDescriptionColor(Some(Num(k as real))) == Css(ColorMapping(prop).value[k].1)
    ensures IntendedDescriptionColor(None) == Css(ColorMapping(prop).value[5].1)
  {
    DescriptionMapping(prop);
    CodeIndex(k);
  }

  /** One legend section: a title and its entries. */
  datatype LegendItem = ColourItem(caption: string, colour: string) | SizeItem(sample: Sample, radius: Radius)
  datatype Section = ColourSection(prop: string, items: seq<LegendItem>) | SizeSection(prop: string, items: seq<LegendItem>)

  /** The colour entries of a legend section, one per mapping entry. */
  method ColourItems(entries: seq<(string, string)>) returns (items: seq<LegendItem>)
    ensures |items| == |entries|
    ensures forall j :: 0 <= j < |entries| ==> items[j] == ColourItem(entries[j].0, entries[j].1)
  {
    items := [];
    for i := 0 to |entries|
      invariant |items| == i
      invariant forall j :: 0 <= j < i ==> items[j] == ColourItem(entries[j].0, entries[j].1)
    {
      items := items + [ColourItem(entries[i].0, entries[i].1)];
    }
  }

  /** The size entries of a legend section, each sample with its radius. */
  method SizeItems(prop: string, samples: seq<Sample>) returns (items: seq<LegendItem>)
    ensures |items| == |samples|
    ensures forall j :: 0 <= j < |samples| ==> items[j] == SizeItem(samples[j], ComputeRadius(prop, samples[j]))
  {
    items := [];
    for i := 0 to |samples|
      invariant |items| == i
      invariant forall j :: 0 <= j < i ==> items[j] == SizeItem(samples[j], ComputeRadius(prop, samples[j]))
    {
      items := items + [SizeItem(samples[i], ComputeRadius(prop, samples[i]))];
    }
  }

  /** `updateLegend(currentColor, currentSize)`: `None` when the page has no
      legend element (nothing is written), otherwise the sections written: a
      colour section unless the colour is 'Country' or has no mapping, then a
      size section when the size property has samples. */
  method UpdateLegend(hasLegend: bool, currentColor: string, currentSize: string) returns (legend: Option<seq<Section>>)
    ensures !hasLegend <==> legend.None?
    ensures hasLegend ==>
      var mapping := ColorMapping(currentColor);
      var samples := SizeSamples(currentSize);
      var colour := currentColor != "Country" && mapping.Some?;
      |legend.value| == (if colour then 1 else 0) + (if samples.Some? then 1 else 0)
      && (colour ==>
            legend.value[0].ColourSection? && legend.value[0].prop == currentColor
            && |legend.value[0].items| == |mapping.value|
            && forall i :: 0 <= i < |mapping.value| ==>
                 legend.value[0].items[i] == ColourItem(mapping.value[i].0, mapping.value[i].1))
      && (samples.Some? ==>
            var last := legend.value[|legend.value| - 1];
            last.SizeSection? && last.prop == currentSize
            && |last.items| == |samples.value|
            && forall i :: 0 <= i < |samples.value| ==>
                 last.items[i] == SizeItem(samples.value[i], ComputeRadius(currentSize, samples.value[i])))
  {
    if !hasLegend {
      return None;
    }
    var mapping := ColorMapping(currentColor);
    var samples := SizeSamples(currentSize);
    var sections: seq<Section> := [];
    if currentColor != "Country" && mapping.Some? {
      var items := ColourItems(mapping.value);
      sections := sections + [ColourSection(currentColor, items)];
    }
    if samples.Some? {
      var items := SizeItems(currentSize, samples.value);
      sections := sections + [SizeSection(currentSize, items)];
    }
    legend := Some(sections);
  }
}
