/** The detail panel (frontend/plots/detailed-view.js): what it shows for
    no, one or several selected earthquakes, the point-of-interest text, the
    related-tsunami lookup, the property dump and the month-name date text. */
module DetailedView {
  import opened Wrappers
  import opened Decimal
  import opened JsValues
  import opened Views

  const NoEarthquakeDetail := "[no earthquake selected]"
  const NoEarthquakePoi := "[no earthquakes selected]"
  const MultipleDetail := "[multiple earthquakes selected. Please select a single earthquake to view details]"
  const MultiplePoi := "[multiple earthquakes selected]"
  const NoPoi := "[no point of interest selected]"
  const NoRelated := "No related tsunamis"

  const KantoLink := "https://www.ngdc.noaa.gov/hazel/view/hazards/earthquake/event-more-info/3227"
  const KantoInfo :=
    "There was a catastrophic earthquake in the Kanto region. The "
    + "source of the earthquake, and the moderate tsunami which it "
    + "generated, included Sagami Gulf and the Boso Peninsula, as "
    + "well as adjacent areas of the sea and land, and apparently "
    + "was oriented latitudinally. The assumed length of the source "
    + "was 150-200 km."
  const SichuanLink := "https://www.ngdc.noaa.gov/hazel/view/hazards/earthquake/event-more-info/7843"
  const SichuanInfo :=
    "At least 69,185 people killed, 374,171 injured and 18,467 "
    + "missing and presumed dead in the Chengdu-Lixian-Guangyuan "
    + "area. More than 45.5 million people in 10 provinces and "
    + "regions were affected. At least 15 million people were "
    + "evacuated from their homes and more than 5 million were left "
    + "homeless. An estimated 5.36 million buildings collapsed and "
    + "more than 21 million buildings were damaged in Sichuan and "
    + "in parts of Chongqing, Gansu, Hubei, Shaanxi and Yunnan."

  /** The point-of-interest HTML: a link to the official page, then the text. */
  function PoiHtml(link: string, info: string): string {
    "<a href=\"" + link + "\" target=\"_blank\">Link to official information</a><br>" + info
  }

  /** `changePOI`: the two earthquakes with a fixed description are matched
      by strict equality with the numbers 3227 and 7843. */
  function Poi(id: Option<Value>): (r: string)
    ensures id == Some(Num(3227.0)) ==> r == PoiHtml(KantoLink, KantoInfo)
    ensures id == Some(Num(7843.0)) ==> r == PoiHtml(SichuanLink, SichuanInfo)
    ensures r == NoPoi <==> id != Some(Num(3227.0)) && id != Some(Num(7843.0))
  {
    if id == Some(Num(3227.0)) then PoiHtml(KantoLink, KantoInfo)
    else if id == Some(Num(7843.0)) then PoiHtml(SichuanLink, SichuanInfo)
    else NoPoi
  }

  /** A property value in string concatenation: `undefined`, a number
      through the number formatter `showNum`, or the text itself. */
  function ShowValue(v: Option<Value>, showNum: real -> string): string {
    match v
    case None => "undefined"
    case Some(Num(n)) => showNum(n)
    case Some(Text(s)) => s
  }

  predicate FirstMatchAt(tsunamis: seq<Feature>, tsu: Value, i: int) {
    0 <= i < |tsunamis| && LooseEq(Get(tsunamis[i].properties, "Id"), Some(tsu))
    && forall j :: 0 <= j < i ==> !LooseEq(Get(tsunamis[j].properties, "Id"), Some(tsu))
  }

  /** The first tsunami whose Id loosely equals `tsu`. */
  function FirstMatch(tsunamis: seq<Feature>, tsu: Value): (r: Option<nat>)
    ensures r.None? <==> forall i :: 0 <= i < |tsunamis| ==> !LooseEq(Get(tsunamis[i].properties, "Id"), Some(tsu))
    ensures r.Some? ==> FirstMatchAt(tsunamis, tsu, r.value)
  {
    if tsunamis == [] then None
    else if LooseEq(Get(tsunamis[0].properties, "Id"), Some(tsu)) then Some(0)
    else
      var r := FirstMatch(tsunamis[1..], tsu);
      assert forall i :: 1 <= i < |tsunamis| ==> tsunamis[i] == tsunamis[1..][i - 1];
      match r
      case None => None
      case Some(k) =>
        assert FirstMatchAt(tsunamis, tsu, k + 1) by {
          assert forall j :: 1 <= j < k + 1 ==> tsunamis[j] == tsunamis[1..][j - 1];
        }
        Some(k + 1)
  }

  /** `getRelatedTsunamis`: the text 'No related tsunamis' when the
      earthquake has no Tsu attribute, otherwise the Location Name of the
      first tsunami with that Id (`undefined` when it has none); indexing
      `[0]` of an empty match list throws. */
  function RelatedTsunami(quake: Feature, tsunamis: seq<Feature>): (r: Result<Option<Value>>)
    ensures Get(quake.properties, "Tsu").None? ==> r == Ok(Some(Text(NoRelated)))
    ensures Get(quake.properties, "Tsu").Some? ==>
      var tsu := Get(quake.properties, "Tsu").value;
      (r.Throws? <==> forall i :: 0 <= i < |tsunamis| ==> !LooseEq(Get(tsunamis[i].properties, "Id"), Some(tsu)))
      && (r.Ok? ==> exists i :: FirstMatchAt(tsunamis, tsu, i) && r.value == Get(tsunamis[i].properties, "Location Name"))
  {
    match Get(quake.properties, "Tsu")
    case None => Ok(Some(Text(NoRelated)))
    case Some(tsu) =>
      match FirstMatch(tsunamis, tsu)
      case None => Throws("Cannot read properties of undefined (reading 'properties')")
      case Some(i) => Ok(Get(tsunamis[i].properties, "Location Name"))
  }

  /** One line of the dump: `key: value`. */
  function Line(p: Prop, showNum: real -> string): string {
    p.key + ": " + ShowValue(Some(p.value), showNum)
  }

  /** `lines.join(sep)`. */
  function Join(lines: seq<string>, sep: string): string {
    if lines == [] then ""
    else if |lines| == 1 then lines[0]
    else lines[0] + sep + Join(lines[1..], sep)
  }

  function Lines(props: seq<Prop>, showNum: real -> string): (r: seq<string>)
  {
    seq(|props|, i requires 0 <= i < |props| => Line(props[i], showNum))
  }

  /** The property dump: one `key: value` line per property, in key order,
      separated by `<br>`. */
  function DetailText(props: seq<Prop>, showNum: real -> string): string {
    Join(Lines(props, showNum), "<br>")
  }

  lemma {:induction false} JoinAppend(lines: seq<string>, last: string, sep: string)
    requires lines != []
    ensures Join(lines + [last], sep) == Join(lines, sep) + sep + last
  {
    if |lines| == 1 {
      assert (lines + [last])[1..] == [last];
    } else {
      assert (lines + [last])[1..] == lines[1..] + [last];
      JoinAppend(lines[1..], last, sep);
    }
  }

  /** The dump grows by exactly one `<br>`-separated line per property: the
      dump of one property is its line, and each further property appends
      `<br>` and its own line. */
  lemma DetailTextAppend(props: seq<Prop>, p: Prop, showNum: real -> string)
    ensures props == [] ==> DetailText(props + [p], showNum) == Line(p, showNum)
    ensures props != [] ==> DetailText(props + [p], showNum) == DetailText(props, showNum) + "<br>" + Line(p, showNum)
  {
    assert Lines(props + [p], showNum) == Lines(props, showNum) + [Line(p, showNum)];
    if props != [] {
      JoinAppend(Lines(props, showNum), Line(p, showNum), "<br>");
    }
  }

  /** What one `update` leaves in the two text areas. When the tsunami lookup
      throws, the point-of-interest text has already been written and the
      detail text is left as it was. */
  datatype Outcome =
    | Panel(detail: string, poi: string)
    | FailedAfterPoi(poi: string, reason: string)

  /** The detail text of one earthquake, or the lookup failure. */
  function ShowQuake(f: Feature, tsunamis: seq<Feature>, showNum: real -> string): (o: Outcome)
    ensures o.poi == Poi(Get(f.properties, "Id"))
    ensures o.Panel? <==> RelatedTsunami(f, tsunamis).Ok?
    ensures o.Panel? && RelatedTsunami(f, tsunamis).value == Some(Text(NoRelated)) ==>
      o.detail == DetailText(f.properties, showNum)
    ensures o.Panel? && RelatedTsunami(f, tsunamis).value != Some(Text(NoRelated)) ==>
      o.detail == DetailText(f.properties, showNum) + "<br>Related Tsunami: "
                  + ShowValue(RelatedTsunami(f, tsunamis).value, showNum)
  {
    var poi := Poi(Get(f.properties, "Id"));
    match RelatedTsunami(f, tsunamis)
    case Throws(e) => FailedAfterPoi(poi, e)
    case Ok(related) =>
      var text := DetailText(f.properties, showNum);
      if related != Some(Text(NoRelated)) then
        Panel(text + "<br>Related Tsunami: " + ShowValue(related, showNum), poi)
      else Panel(text, poi)
  }

  /** `update(plots, [selection, tsunamis])`. */
  function Update(sel: Selection, tsunamis: seq<Feature>, showNum: real -> string): (o: Outcome)
    ensures sel.NothingSelected? || sel == SelectedArray([]) ==> o == Panel(NoEarthquakeDetail, NoEarthquakePoi)
    ensures sel.SelectedArray? && |sel.items| > 1 ==> o == Panel(MultipleDetail, MultiplePoi)
  {
    match sel
    case NothingSelected => Panel(NoEarthquakeDetail, NoEarthquakePoi)
    case SelectedArray(items) =>
      if |items| == 0 then Panel(NoEarthquakeDetail, NoEarthquakePoi)
      else if |items| > 1 then Panel(MultipleDetail, MultiplePoi)
      else ShowQuake(items[0], tsunamis, showNum)
    case SelectedFeature(f) => ShowQuake(f, tsunamis, showNum)
  }

  /** A one-element array is shown exactly like its element; only a single
      earthquake ever gets a point-of-interest other than the two fixed
      placeholder texts. */
  lemma SingletonIsFeature(f: Feature, tsunamis: seq<Feature>, showNum: real -> string)
    ensures Update(SelectedArray([f]), tsunamis, showNum) == Update(SelectedFeature(f), tsunamis, showNum)
    ensures Update(SelectedFeature(f), tsunamis, showNum).poi == Poi(Get(f.properties, "Id"))
  {
    assert [f][0] == f;
    assert Update(SelectedFeature(f), tsunamis, showNum) == ShowQuake(f, tsunamis, showNum);
  }

  /** An earthquake without a Tsu attribute always shows its plain property
      dump; one with a Tsu attribute fails exactly when no tsunami has that
      Id. */
  lemma TsunamiLineCases(f: Feature, tsunamis: seq<Feature>, showNum: real -> string)
    ensures Get(f.properties, "Tsu").None? ==>
      Update(SelectedFeature(f), tsunamis, showNum) == Panel(DetailText(f.properties, showNum), Poi(Get(f.properties, "Id")))
    ensures Get(f.properties, "Tsu").Some? ==>
      (Update(SelectedFeature(f), tsunamis, showNum).FailedAfterPoi? <==>
         forall i :: 0 <= i < |tsunamis| ==> !LooseEq(Get(tsunamis[i].properties, "Id"), Get(f.properties, "Tsu")))
  {
    if Get(f.properties, "Tsu").None? {
      NoTsuShowsProperties(f, tsunamis, showNum);
    } else {
      TsuFailsWithoutMatch(f, tsunamis, showNum);
    }
  }

  lemma NoTsuShowsProperties(f: Feature, tsunamis: seq<Feature>, showNum: real -> string)
    requires Get(f.properties, "Tsu").None?
    ensures Update(SelectedFeature(f), tsunamis, showNum) == Panel(DetailText(f.properties, showNum), Poi(Get(f.properties, "Id")))
  {
    assert RelatedTsunami(f, tsunamis) == Ok(Some(Text(NoRelated)));
  }

  lemma TsuFailsWithoutMatch(f: Feature, tsunamis: seq<Feature>, showNum: real -> string)
    requires Get(f.properties, "Tsu").Some?
    ensures Update(SelectedFeature(f), tsunamis, showNum).FailedAfterPoi? <==>
      forall i :: 0 <= i < |tsunamis| ==> !LooseEq(Get(tsunamis[i].properties, "Id"), Get(f.properties, "Tsu"))
  {
    assert Update(SelectedFeature(f), tsunamis, showNum).FailedAfterPoi? <==> RelatedTsunami(f, tsunamis).Throws?;
  }


  const MonthNames: seq<string> := [
    "January", "February", "March", "April", "May", "June",
    "July", "August", "September", "October", "November", "December"
  ]

  /** `getDateString(month, year)`: the 0-based month's name, a space and the
      year; a month outside 0..11 reads `undefined`. */
  function DateString(month: int, year: int): (r: string)
  {
    (if 0 <= month < 12 then MonthNames[month] else "undefined") + " " + ShowInt(year)
  }

  predicate NoSpace(s: string) {
    forall i :: 0 <= i < |s| ==> s[i] != ' '
  }

  lemma SplitAtFirstSpace(a: string, b: string, c: string, d: string)
    requires NoSpace(a) && NoSpace(c)
    requires a + " " + b == c + " " + d
    ensures a == c && b == d
  {
    var s := a + " " + b;
    assert forall k :: 0 <= k < |c| ==> s[k] == c[k];
    assert forall k :: 0 <= k < |a| ==> s[k] == a[k];
    assert s[|a|] == ' ';
    assert s[|c|] == ' ';
    assert |a| == |c|;
    assert a == s[..|a|];
    assert c == s[..|c|];
    assert b == s[|a| + 1..];
    assert d == s[|c| + 1..];
  }

  lemma MonthNameNoSpace(m: int)
    requires 0 <= m < 12
    ensures NoSpace(MonthNames[m])
  {
  }

  lemma MonthNamesDistinct(m1: int, m2: int)
    requires 0 <= m1 < 12 && 0 <= m2 < 12 && MonthNames[m1] == MonthNames[m2]
    ensures m1 == m2
  {
  }

  /** Different (month, year) pairs with months in 0..11 give different
      date texts. */
  lemma DateStringInjective(m1: int, y1: int, m2: int, y2: int)
    requires 0 <= m1 < 12 && 0 <= m2 < 12
    requires DateString(m1, y1) == DateString(m2, y2)
    ensures m1 == m2 && y1 == y2
  {
    MonthNameNoSpace(m1);
    MonthNameNoSpace(m2);
    SplitAtFirstSpace(MonthNames[m1], ShowInt(y1), MonthNames[m2], ShowInt(y2));
    MonthNamesDistinct(m1, m2);
    ShowIntInjective(y1, y2);
  }
}
