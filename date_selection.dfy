/** The year × month histogram of frontend/plots/date-selection.js: the
    record counts per (year, month), zero-filled over the year span, grouped
    into year ranges whose width adapts to the span, the range labels and
    how a click on one is parsed back, and the brush's cell selection. */
module DateSelection {
  import opened Wrappers
  import opened Decimal
  import opened JsValues
  import opened Seqs

  /** One entry of `yearMonthData`. */
  datatype Cell = Cell(year: int, month: int, count: nat)

  /** One entry of `yearRanges`: the closed interval [start, end] of years. */
  datatype YearRange = YearRange(start: int, end: int)

  /** One entry of a row's aggregated data. */
  datatype MonthCount = MonthCount(month: int, count: nat)

  /** One entry of `count_data`: a row label and its per-month counts. */
  datatype RangeRow = RangeRow(range: string, data: seq<MonthCount>)

  // ---------------------------------------------------------------------
  // Keys of a record

  /** `parseInt(properties.Year)`; `None` is NaN. */
  function YearKey(f: Feature): Option<int> {
    ParseInt(Get(f.properties, "Year"))
  }

  /** `parseInt(properties.Mo)`, made 0-based; a month that does not parse is filed under 0. */
  function MonthKey(f: Feature): int {
    match ParseInt(Get(f.properties, "Mo"))
    case None => 0
    case Some(m) => m - 1
  }

  /** A record whose month is missing lands in the same bucket as a January record. */
  lemma MissingMonthIsJanuary(f: Feature, g: Feature)
    requires Get(f.properties, "Mo") == None
    requires Get(g.properties, "Mo") == Some(Num(1.0))
    ensures MonthKey(f) == MonthKey(g) == 0
  {
  }

  /** The calendar months 1..12 get the distinct keys 0..11. */
  lemma MonthKeyOfCalendarMonth(f: Feature, mo: int)
    requires 1 <= mo <= 12
    requires Get(f.properties, "Mo") == Some(Num(mo as real))
    ensures 0 <= MonthKey(f) < 12 && MonthKey(f) == mo - 1
  {
  }

  /** The (year, month) key of every record whose year parses, each with weight 1,
      in record order: the leaves d3's `rollup` counts. */
  function KeyList(fs: seq<Feature>): seq<((int, int), nat)> {
    if fs == [] then []
    else
      (match YearKey(fs[0])
       case Some(y) => [((y, MonthKey(fs[0])), 1)]
       case None => []) + KeyList(fs[1..])
  }

  lemma {:induction false} KeyListCountsDatedRecords(fs: seq<Feature>)
    ensures Total(KeyList(fs)) == |Filter(fs, (f: Feature) => YearKey(f).Some?)|
  {
    if fs != [] {
      KeyListCountsDatedRecords(fs[1..]);
      TotalAppend(if YearKey(fs[0]).Some? then [((YearKey(fs[0]).value, MonthKey(fs[0])), 1)] else [], KeyList(fs[1..]));
    }
  }

  /** Number of records in year `y` and month `m`. */
  function Count(fs: seq<Feature>, y: int, m: int): nat {
    WeightOf(KeyList(fs), (y, m))
  }

  function YearSet(fs: seq<Feature>): set<int> {
    set e | e in KeyList(fs) :: e.0.0
  }

  function MonthsOf(fs: seq<Feature>, y: int): set<int> {
    set e | e in KeyList(fs) && e.0.0 == y :: e.0.1
  }

  /** `counts`: year -> month -> number of records (records whose year is NaN are never looked up). */
  function Rollup(fs: seq<Feature>): map<int, map<int, nat>> {
    map y | y in YearSet(fs) :: map m | m in MonthsOf(fs, y) :: Count(fs, y, m)
  }

  /** d3.extent of the parsed years: `None` when no year parses. */
  function YearExtent(ks: seq<((int, int), nat)>): (r: Option<(int, int)>)
    ensures r.None? <==> ks == []
    ensures r.Some? ==> r.value.0 <= r.value.1
    ensures r.Some? ==> forall i :: 0 <= i < |ks| ==> r.value.0 <= ks[i].0.0 <= r.value.1
    ensures r.Some? ==> exists i :: 0 <= i < |ks| && ks[i].0.0 == r.value.0
    ensures r.Some? ==> exists i :: 0 <= i < |ks| && ks[i].0.0 == r.value.1
  {
    if ks == [] then None
    else
      var y := ks[0].0.0;
      match YearExtent(ks[1..])
      case None => Some((y, y))
      case Some((lo, hi)) =>
        assert forall i :: 1 <= i < |ks| ==> ks[i] == ks[1..][i - 1];
        Some((if y < lo then y else lo, if y > hi then y else hi))
  }

  // ---------------------------------------------------------------------
  // yearMonthData

  /** The twelve 0-based months. */
  const AllMonths: set<int> := {0, 1, 2, 3, 4, 5, 6, 7, 8, 9, 10, 11}

  /** The months the back-fill loop checks: 1..11. */
  const BackFillMonths: set<int> := AllMonths - {0}

  /** The month map the source keeps for `year`: twelve zeros for a year
      with no records, otherwise the counted months plus zeros for the
      missing months 1..11 (month 0 is not back-filled). */
  function Filled(counts: map<int, map<int, nat>>, year: int): map<int, nat> {
    if year !in counts then map m | m in AllMonths :: 0
    else counts[year] + map m | m in BackFillMonths && m !in counts[year] :: 0
  }

  lemma FilledKeys(counts: map<int, map<int, nat>>, year: int)
    ensures year !in counts ==> Filled(counts, year).Keys == AllMonths
    ensures year in counts ==> Filled(counts, year).Keys == counts[year].Keys + BackFillMonths
  {
  }

  predicate PairsDistinct(ymd: seq<Cell>) {
    forall i, j :: 0 <= i < j < |ymd| ==> ymd[i].year != ymd[j].year || ymd[i].month != ymd[j].month
  }

  /** Some cell of `ymd` is at year `y`, month `m`. */
  predicate HasCell(ymd: seq<Cell>, y: int, m: int) {
    exists i :: 0 <= i < |ymd| && ymd[i].year == y && ymd[i].month == m
  }

  /** Every cell lies in a year of [lo, hi] and carries its filled month map's count. */
  predicate CellsFromMaps(counts: map<int, map<int, nat>>, lo: int, hi: int, ymd: seq<Cell>) {
    forall i :: 0 <= i < |ymd| ==>
      && lo <= ymd[i].year <= hi
      && ymd[i].month in Filled(counts, ymd[i].year)
      && ymd[i].count == Filled(counts, ymd[i].year)[ymd[i].month]
  }

  /** Every month of the filled map of every year in [lo, hi] has a cell. */
  predicate CoversMaps(counts: map<int, map<int, nat>>, lo: int, hi: int, ymd: seq<Cell>) {
    forall y, m :: lo <= y <= hi && m in Filled(counts, y) ==> HasCell(ymd, y, m)
  }

  /** What `yearMonthData` holds for the records `fs`: one cell per (year, month)
      of the filled month maps of every year in the extent, each once. */
  predicate IsYearMonthData(fs: seq<Feature>, ymd: seq<Cell>) {
    match YearExtent(KeyList(fs))
    case None => ymd == []
    case Some((lo, hi)) =>
      CellsFromMaps(Rollup(fs), lo, hi, ymd) && CoversMaps(Rollup(fs), lo, hi, ymd) && PairsDistinct(ymd)
  }

  /** Appends one cell per entry of `monthMap`, in an unspecified month order. */
  method PushMonths(ymd: seq<Cell>, year: int, monthMap: map<int, nat>) returns (out: seq<Cell>)
    ensures |ymd| <= |out| && out[..|ymd|] == ymd
    ensures forall i :: |ymd| <= i < |out| ==>
              out[i].year == year && out[i].month in monthMap && out[i].count == monthMap[out[i].month]
    ensures forall m :: m in monthMap ==> exists i :: |ymd| <= i < |out| && out[i].month == m
    ensures forall i, j :: |ymd| <= i < j < |out| ==> out[i].month != out[j].month
  {
    out := ymd;
    var todo := monthMap.Keys;
    while todo != {}
      invariant todo <= monthMap.Keys
      invariant |ymd| <= |out| && out[..|ymd|] == ymd
      invariant forall i :: |ymd| <= i < |out| ==>
                  out[i].year == year && out[i].month in monthMap && out[i].month !in todo
                  && out[i].count == monthMap[out[i].month]
      invariant forall m :: m in monthMap && m !in todo ==> exists i :: |ymd| <= i < |out| && out[i].month == m
      invariant forall i, j :: |ymd| <= i < j < |out| ==> out[i].month != out[j].month
      decreases |todo|
    {
      NonEmptyHasElement(todo);
      var m :| m in todo;
      ghost var prev := out;
      out := out + [Cell(year, m, monthMap[m])];
      assert out[|out| - 1].month == m;
      forall m' | m' in monthMap && m' !in todo - {m}
        ensures exists i :: |ymd| <= i < |out| && out[i].month == m'
      {
        if m' == m {
          assert out[|out| - 1].month == m';
        } else {
          var i :| |ymd| <= i < |prev| && prev[i].month == m';
          assert out[i] == prev[i];
        }
      }
      todo := todo - {m};
    }
  }

  lemma NonEmptyHasElement(s: set<int>)
    requires s != {}
    ensures exists x :: x in s
  {
    if forall x :: x !in s {
      assert false;
    }
  }

  /** The back-fill loop: adds a zero for every month 1..11 the year's map lacks. */
  method FillMissingMonths(monthMap: map<int, nat>) returns (filled: map<int, nat>)
    ensures forall m :: m in filled <==> m in monthMap || m in BackFillMonths
    ensures forall m :: m in monthMap ==> filled[m] == monthMap[m]
    ensures forall m :: m in filled && m !in monthMap ==> filled[m] == 0
  {
    filled := monthMap;
    var i := 1;
    while i < 12
      invariant 1 <= i <= 12
      invariant forall m :: m in filled <==> m in monthMap || (m in BackFillMonths && m < i)
      invariant forall m :: m in monthMap ==> filled[m] == monthMap[m]
      invariant forall m :: m in filled && m !in monthMap ==> filled[m] == 0
    {
      if i !in filled {
        filled := filled[i := 0];
      }
      i := i + 1;
    }
  }

  /** Appending the cells of one more year keeps the grid invariant of the loop. */
  lemma GridStep(counts: map<int, map<int, nat>>, lo: int, year: int, before: seq<Cell>, after: seq<Cell>)
    requires lo <= year
    requires CellsFromMaps(counts, lo, year - 1, before) && CoversMaps(counts, lo, year - 1, before)
    requires PairsDistinct(before)
    requires |before| <= |after| && after[..|before|] == before
    requires forall i :: |before| <= i < |after| ==>
               after[i].year == year && after[i].month in Filled(counts, year)
               && after[i].count == Filled(counts, year)[after[i].month]
    requires forall m :: m in Filled(counts, year) ==> exists i :: |before| <= i < |after| && after[i].month == m
    requires forall i, j :: |before| <= i < j < |after| ==> after[i].month != after[j].month
    ensures CellsFromMaps(counts, lo, year, after) && CoversMaps(counts, lo, year, after)
    ensures PairsDistinct(after)
  {
    forall i | 0 <= i < |before| ensures after[i] == before[i] {
      assert after[..|before|][i] == before[i];
    }
    forall y, m | lo <= y <= year && m in Filled(counts, y) ensures HasCell(after, y, m) {
      if y < year {
        var i :| 0 <= i < |before| && before[i].year == y && before[i].month == m;
        assert after[i] == before[i];
      } else {
        var i :| |before| <= i < |after| && after[i].month == m;
        assert after[i].year == y;
      }
    }
  }

  /** The rollup and the zero-filling loop of `render`. */
  method BuildYearMonthData(fs: seq<Feature>) returns (ymd: seq<Cell>)
    ensures IsYearMonthData(fs, ymd)
  {
    var counts := Rollup(fs);
    var extent := YearExtent(KeyList(fs));
    ymd := [];
    if extent.None? {
      return;
    }
    var (lo, hi) := extent.value;
    var year := lo;
    while year <= hi
      invariant lo <= year <= hi + 1
      invariant CellsFromMaps(counts, lo, year - 1, ymd) && CoversMaps(counts, lo, year - 1, ymd)
      invariant PairsDistinct(ymd)
    {
      var monthMap: map<int, nat>;
      if year !in counts {
        monthMap := map m | m in AllMonths :: 0;
      } else {
        monthMap := FillMissingMonths(counts[year]);
        var spec := Filled(counts, year);
        FilledKeys(counts, year);
        forall m ensures m in monthMap.Keys <==> m in spec.Keys {
          assert m in spec.Keys <==> m in counts[year].Keys || m in BackFillMonths;
        }
        assert monthMap.Keys == spec.Keys;
        assert forall m :: m in monthMap ==> monthMap[m] == spec[m];
      }
      assert monthMap == Filled(counts, year);
      var before := ymd;
      ymd := PushMonths(ymd, year, monthMap);
      GridStep(counts, lo, year, before, ymd);
      year := year + 1;
    }
  }

  // ---------------------------------------------------------------------
  // Properties of the zero-filled grid

  /** The years of the grid: exactly the extent's years, each with at least the months 1..11. */
  lemma EveryYearHasCells(fs: seq<Feature>, ymd: seq<Cell>, y: int)
    requires IsYearMonthData(fs, ymd)
    requires YearExtent(KeyList(fs)).Some?
    requires YearExtent(KeyList(fs)).value.0 <= y <= YearExtent(KeyList(fs)).value.1
    ensures forall m :: m in BackFillMonths ==> HasCell(ymd, y, m)
  {
    FilledKeys(Rollup(fs), y);
  }

  /** A year of the extent without records gets exactly the twelve months 0..11, all zero. */
  lemma EmptyYearIsTwelveZeros(fs: seq<Feature>, ymd: seq<Cell>, y: int)
    requires IsYearMonthData(fs, ymd)
    requires YearExtent(KeyList(fs)).Some?
    requires YearExtent(KeyList(fs)).value.0 <= y <= YearExtent(KeyList(fs)).value.1
    requires forall f :: f in fs ==> YearKey(f) != Some(y)
    ensures forall m :: m in AllMonths <==> HasCell(ymd, y, m)
    ensures forall i :: 0 <= i < |ymd| && ymd[i].year == y ==> ymd[i].count == 0
  {
    NoRecordsNoYear(fs, y);
    FilledKeys(Rollup(fs), y);
  }

  lemma {:induction false} NoRecordsNoYear(fs: seq<Feature>, y: int)
    requires forall f :: f in fs ==> YearKey(f) != Some(y)
    ensures y !in YearSet(fs)
  {
    if fs != [] {
      NoRecordsNoYear(fs[1..], y);
      assert KeyList(fs) == (if YearKey(fs[0]).Some? then [((YearKey(fs[0]).value, MonthKey(fs[0])), 1)] else []) + KeyList(fs[1..]);
    }
  }

  /** A year with records keeps its counted months and gains zero cells for the
      missing months 1..11 only: it has a month-0 cell exactly when a record
      was filed under month 0. */
  lemma BackFilledMonths(fs: seq<Feature>, ymd: seq<Cell>, y: int)
    requires IsYearMonthData(fs, ymd)
    requires y in YearSet(fs)
    ensures forall m :: HasCell(ymd, y, m) <==> m in MonthsOf(fs, y) || m in BackFillMonths
    ensures HasCell(ymd, y, 0) <==> 0 in MonthsOf(fs, y)
  {
    var ks := KeyList(fs);
    var e :| e in ks && e.0.0 == y;
    var k :| 0 <= k < |ks| && ks[k] == e;
    var counts := Rollup(fs);
    assert y in counts;
    FilledKeys(counts, y);
    assert counts[y].Keys == MonthsOf(fs, y);
    var (lo, hi) := YearExtent(ks).value;
    assert lo <= y <= hi;
    forall m ensures HasCell(ymd, y, m) <==> m in Filled(counts, y) {
      if HasCell(ymd, y, m) {
        var i :| 0 <= i < |ymd| && ymd[i].year == y && ymd[i].month == m;
      }
    }
  }

  /** Every cell holds the number of records of its year and month. */
  lemma CellCountIsRecordCount(fs: seq<Feature>, ymd: seq<Cell>, i: int)
    requires IsYearMonthData(fs, ymd)
    requires 0 <= i < |ymd|
    ensures ymd[i].count == Count(fs, ymd[i].year, ymd[i].month)
  {
    var c := ymd[i];
    var counts := Rollup(fs);
    if !(c.year in counts && c.month in counts[c.year]) {
      forall j | 0 <= j < |KeyList(fs)| ensures KeyList(fs)[j].0 != (c.year, c.month) {
        var e := KeyList(fs)[j];
        assert e in KeyList(fs);
        assert e.0.0 in YearSet(fs) && e.0.1 in MonthsOf(fs, e.0.0);
      }
      WeightOfAbsentKey(KeyList(fs), (c.year, c.month));
    }
  }

  lemma {:induction false} WeightOfAbsentKey<K>(xs: seq<(K, nat)>, k: K)
    requires forall j :: 0 <= j < |xs| ==> xs[j].0 != k
    ensures WeightOf(xs, k) == 0
  {
    if xs != [] {
      WeightOfAbsentKey(xs[1..], k);
    }
  }

  function TotalCells(cells: seq<Cell>): nat {
    if cells == [] then 0 else cells[0].count + TotalCells(cells[1..])
  }

  /** The (year, month) key of every cell, in order.
      Proof helper: its ensures restate the body for the lemmas that use it. */
  function CellKeys(cells: seq<Cell>): (ks: seq<(int, int)>)
    ensures |ks| == |cells|
    ensures forall i :: 0 <= i < |cells| ==> ks[i] == (cells[i].year, cells[i].month)
  {
    if cells == [] then [] else [(cells[0].year, cells[0].month)] + CellKeys(cells[1..])
  }

  lemma {:induction false} TotalCellsAsKeyedSum(cells: seq<Cell>, xs: seq<((int, int), nat)>)
    requires forall i :: 0 <= i < |cells| ==> cells[i].count == WeightOf(xs, (cells[i].year, cells[i].month))
    ensures TotalCells(cells) == SumOverKeys(CellKeys(cells), xs)
  {
    if cells != [] {
      TotalCellsAsKeyedSum(cells[1..], xs);
    }
  }

  /** Every dated record's (year, month) key is the key of some cell. */
  lemma RecordKeysHaveCells(fs: seq<Feature>, ymd: seq<Cell>)
    requires IsYearMonthData(fs, ymd)
    ensures forall i :: 0 <= i < |KeyList(fs)| ==> KeyList(fs)[i].0 in CellKeys(ymd)
  {
    var ks := KeyList(fs);
    var keys := CellKeys(ymd);
    forall i | 0 <= i < |ks| ensures ks[i].0 in keys {
      var e := ks[i];
      assert e in ks;
      var counts := Rollup(fs);
      assert e.0.0 in YearSet(fs) && e.0.1 in MonthsOf(fs, e.0.0);
      FilledKeys(counts, e.0.0);
      assert e.0.1 in Filled(counts, e.0.0);
      assert HasCell(ymd, e.0.0, e.0.1);
      var j :| 0 <= j < |ymd| && ymd[j].year == e.0.0 && ymd[j].month == e.0.1;
      assert keys[j] == e.0;
    }
  }

  /** Zero-filling neither adds nor loses records: the cells add up to the
      number of records whose year parses. */
  lemma GridCountsEveryDatedRecord(fs: seq<Feature>, ymd: seq<Cell>)
    requires IsYearMonthData(fs, ymd)
    ensures TotalCells(ymd) == |Filter(fs, (f: Feature) => YearKey(f).Some?)|
  {
    var ks := KeyList(fs);
    forall i | 0 <= i < |ymd| ensures ymd[i].count == WeightOf(ks, (ymd[i].year, ymd[i].month)) {
      CellCountIsRecordCount(fs, ymd, i);
    }
    TotalCellsAsKeyedSum(ymd, ks);
    RecordKeysHaveCells(fs, ymd);
    var keys := CellKeys(ymd);
    assert Distinct(keys);
    KeyedSumIsTotal(keys, ks);
    KeyListCountsDatedRecords(fs);
  }

  // ---------------------------------------------------------------------
  // Year ranges

  /** `rangeSize` for the year span `|minYear - maxYear|`. */
  function RangeSize(span: nat): (size: nat)
    ensures size == 1 || size == 10 || size == 100 || size == 500
    ensures size == 1 <==> span <= 10
    ensures size > 1 ==> size < span
    ensures span <= 500 ==> span < 11 * size
  {
    if span > 500 then 500
    else if span > 100 then 100
    else if span > 10 then 10
    else 1
  }

  /** `ranges` cut [lo, hi] into consecutive closed intervals of width `size`,
      the last one possibly shorter; nothing when lo > hi. */
  ghost predicate Tiles(ranges: seq<YearRange>, lo: int, hi: int, size: int) {
    if lo > hi then ranges == []
    else
      && |ranges| >= 1
      && ranges[0].start == lo
      && ranges[|ranges| - 1].end == hi
      && (forall i :: 0 <= i < |ranges| ==> ranges[i].start <= ranges[i].end <= hi && ranges[i].end < ranges[i].start + size)
      && (forall i, j :: 0 <= i < j < |ranges| && j == i + 1 ==>
            ranges[i].end == ranges[i].start + size - 1 && ranges[j].start == ranges[i].end + 1)
  }

  /** `createYearRanges`. */
  method CreateYearRanges(minYear: int, maxYear: int, rangeSize: int) returns (ranges: seq<YearRange>)
    requires rangeSize > 0
    ensures Tiles(ranges, minYear, maxYear, rangeSize)
  {
    ranges := [];
    var start := minYear;
    while start <= maxYear
      invariant ranges == [] ==> start == minYear
      invariant ranges != [] ==> ranges[0].start == minYear && start == ranges[|ranges| - 1].start + rangeSize
      invariant ranges != [] ==> ranges[|ranges| - 1].end == (if start - 1 < maxYear then start - 1 else maxYear)
      invariant forall i :: 0 <= i < |ranges| ==>
                  ranges[i].start <= ranges[i].end <= maxYear && ranges[i].end < ranges[i].start + rangeSize
      invariant forall i :: 0 <= i < |ranges| - 1 ==>
                  ranges[i].end == ranges[i].start + rangeSize - 1 && ranges[i + 1].start == ranges[i].end + 1
      decreases maxYear - start
    {
      var end := if start + rangeSize - 1 < maxYear then start + rangeSize - 1 else maxYear;
      ranges := ranges + [YearRange(start, end)];
      start := start + rangeSize;
    }
  }

  lemma {:induction false} TileStart(ranges: seq<YearRange>, lo: int, hi: int, size: int, i: int)
    requires Tiles(ranges, lo, hi, size) && lo <= hi
    requires 0 <= i < |ranges|
    ensures ranges[i].start == lo + i * size
  {
    if i > 0 {
      TileStart(ranges, lo, hi, size, i - 1);
      assert (i - 1) * size + size == i * size;
    }
  }

  /** The number of rows: one per started block of `size` years. */
  lemma TilesCount(ranges: seq<YearRange>, lo: int, hi: int, size: int)
    requires Tiles(ranges, lo, hi, size) && lo <= hi && size > 0
    ensures (|ranges| - 1) * size <= hi - lo < |ranges| * size
  {
    var n := |ranges|;
    TileStart(ranges, lo, hi, size, n - 1);
    assert (n - 1) * size + size == n * size;
  }

  /** The adaptive range size keeps the histogram at no more than eleven rows
      for spans up to 500 years. */
  lemma RowsBounded(ranges: seq<YearRange>, lo: int, hi: int)
    requires lo <= hi <= lo + 500
    requires Tiles(ranges, lo, hi, RangeSize(hi - lo))
    ensures |ranges| <= 11
  {
    if |ranges| > 11 {
      TileStart(ranges, lo, hi, RangeSize(hi - lo), 11);
    }
  }

  lemma {:induction false} TilesOrdered(ranges: seq<YearRange>, lo: int, hi: int, size: int, i: int, j: int)
    requires Tiles(ranges, lo, hi, size) && lo <= hi
    requires 0 <= i < j < |ranges|
    ensures ranges[i].end < ranges[j].start
    decreases j - i
  {
    if i + 1 < j {
      TilesOrdered(ranges, lo, hi, size, i + 1, j);
    }
  }

  function {:induction false} FindTile(ranges: seq<YearRange>, lo: int, hi: int, size: int, y: int, k: nat): (i: nat)
    requires Tiles(ranges, lo, hi, size) && lo <= hi
    requires k < |ranges| && ranges[k].start <= y <= hi
    ensures k <= i < |ranges| && ranges[i].start <= y <= ranges[i].end
    decreases |ranges| - k
  {
    if y <= ranges[k].end then k else FindTile(ranges, lo, hi, size, y, k + 1)
  }

  /** Every year of [lo, hi] lies in exactly one range. */
  lemma TilesCover(ranges: seq<YearRange>, lo: int, hi: int, size: int, y: int)
    requires Tiles(ranges, lo, hi, size)
    requires lo <= y <= hi
    ensures exists i :: 0 <= i < |ranges| && ranges[i].start <= y <= ranges[i].end
    ensures forall i, j :: (0 <= i < |ranges| && 0 <= j < |ranges| && ranges[i].start <= y <= ranges[i].end
                            && ranges[j].start <= y <= ranges[j].end) ==> i == j
  {
    var i := FindTile(ranges, lo, hi, size, y, 0);
    forall i, j | 0 <= i < |ranges| && 0 <= j < |ranges| && ranges[i].start <= y <= ranges[i].end
                  && ranges[j].start <= y <= ranges[j].end
      ensures i == j
    {
      if i < j {
        TilesOrdered(ranges, lo, hi, size, i, j);
      } else if j < i {
        TilesOrdered(ranges, lo, hi, size, j, i);
      }
    }
  }

  /** The y-axis title: "Year" when every range is a single year. */
  function YearAxisTitle(ranges: seq<YearRange>): string {
    if forall i :: 0 <= i < |ranges| ==> ranges[i].start == ranges[i].end then "Year" else "Year Ranges"
  }

  /** The title says "Year" exactly when the span is at most ten years. */
  lemma YearAxisTitleBySpan(ranges: seq<YearRange>, lo: int, hi: int)
    requires lo <= hi
    requires Tiles(ranges, lo, hi, RangeSize(hi - lo))
    ensures YearAxisTitle(ranges) == "Year" <==> hi - lo <= 10
  {
    if hi - lo > 10 {
      var size := RangeSize(hi - lo);
      if |ranges| > 1 {
        assert ranges[1].start == ranges[0].end + 1 && ranges[0].end == lo + size - 1;
      }
      assert ranges[0].start != ranges[0].end;
    }
  }

  // ---------------------------------------------------------------------
  // Row labels and the tick click

  /** A row label: "S" for a single year, "S-E" otherwise. */
  function Label(r: YearRange): string {
    if r.start == r.end then ShowInt(r.start) else ShowInt(r.start) + "-" + ShowInt(r.end)
  }

  /** The matches of the global pattern `(?<!\d)-?\d+` from position `i` on,
      each converted with `Number`: a match may not follow a digit, takes a
      leading '-' when a digit follows it, and then the longest digit run. */
  function MatchFrom(s: string, i: nat): seq<int>
    requires i <= |s|
    decreases |s| - i
  {
    if i == |s| then []
    else if i > 0 && IsDigit(s[i - 1]) then MatchFrom(s, i + 1)
    else if s[i] == '-' && i + 1 < |s| && IsDigit(s[i + 1]) then
      var e := RunEnd(s, i + 1);
      [-(DigitsValue(s[i + 1..e]) as int)] + MatchFrom(s, e)
    else if IsDigit(s[i]) then
      var e := RunEnd(s, i);
      [DigitsValue(s[i..e]) as int] + MatchFrom(s, e)
    else MatchFrom(s, i + 1)
  }

  function MatchNumbers(s: string): seq<int> {
    MatchFrom(s, 0)
  }

  /** The decimal text of `x` sitting at position `p`, not preceded and not
      followed by a digit, is matched as `x`. */
  lemma MatchIntAt(s: string, p: nat, x: int)
    requires p + |ShowInt(x)| <= |s| && s[p..p + |ShowInt(x)|] == ShowInt(x)
    requires p == 0 || !IsDigit(s[p - 1])
    requires p + |ShowInt(x)| == |s| || !IsDigit(s[p + |ShowInt(x)|])
    ensures MatchFrom(s, p) == [x] + MatchFrom(s, p + |ShowInt(x)|)
  {
    if x < 0 {
      MatchNegativeAt(s, p, x);
    } else {
      MatchNaturalAt(s, p, x);
    }
  }

  lemma MatchNegativeAt(s: string, p: nat, x: int)
    requires x < 0
    requires p + |ShowInt(x)| <= |s| && s[p..p + |ShowInt(x)|] == ShowInt(x)
    requires p == 0 || !IsDigit(s[p - 1])
    requires p + |ShowInt(x)| == |s| || !IsDigit(s[p + |ShowInt(x)|])
    ensures MatchFrom(s, p) == [x] + MatchFrom(s, p + |ShowInt(x)|)
  {
    var n, t := ShowNat(-x), ShowInt(x);
    var q := p + |t|;
    assert t == "-" + n;
    assert t[0] == '-' && t[1..] == n;
    assert s[p..q] == t;
    assert s[p] == s[p..q][0];
    assert s[p + 1..q] == s[p..q][1..];
    MatchNegativeRun(s, p, q);
    ShowNatRoundTrip(-x);
    assert DigitsValue(s[p + 1..q]) == -x;
  }

  lemma MatchNaturalAt(s: string, p: nat, x: int)
    requires x >= 0
    requires p + |ShowInt(x)| <= |s| && s[p..p + |ShowInt(x)|] == ShowInt(x)
    requires p == 0 || !IsDigit(s[p - 1])
    requires p + |ShowInt(x)| == |s| || !IsDigit(s[p + |ShowInt(x)|])
    ensures MatchFrom(s, p) == [x] + MatchFrom(s, p + |ShowInt(x)|)
  {
    var n := ShowNat(x);
    var q := p + |ShowInt(x)|;
    assert ShowInt(x) == n;
    MatchNaturalRun(s, p, q);
    ShowNatRoundTrip(x);
    assert DigitsValue(s[p..q]) == x;
  }

  /** A '-' and a maximal digit run, not after a digit, is one negative match. */
  lemma MatchNegativeRun(s: string, p: nat, q: nat)
    requires p + 1 < q <= |s| && s[p] == '-' && AllDigits(s[p + 1..q])
    requires p == 0 || !IsDigit(s[p - 1])
    requires q == |s| || !IsDigit(s[q])
    ensures MatchFrom(s, p) == [-(DigitsValue(s[p + 1..q]) as int)] + MatchFrom(s, q)
  {
    MatchDigitRun(s, p + 1, q);
  }

  /** A maximal digit run, not after a digit, is one match. */
  lemma MatchNaturalRun(s: string, p: nat, q: nat)
    requires p < q <= |s| && AllDigits(s[p..q])
    requires p == 0 || !IsDigit(s[p - 1])
    requires q == |s| || !IsDigit(s[q])
    ensures MatchFrom(s, p) == [DigitsValue(s[p..q]) as int] + MatchFrom(s, q)
  {
    MatchDigitRun(s, p, q);
  }

  /** A maximal run of digits in `s[p..q]` is found by RunEnd, and is all digits. */
  lemma MatchDigitRun(s: string, p: nat, q: nat)
    requires p < q <= |s| && AllDigits(s[p..q])
    requires q == |s| || !IsDigit(s[q])
    ensures RunEnd(s, p) == q && IsDigit(s[p])
  {
    forall k | p <= k < q ensures IsDigit(s[k]) {
      assert s[k] == s[p..q][k - p];
    }
    RunEndOfDigits(s, p, q);
  }

  /** The last character of an integer's text is a digit. */
  lemma ShowIntEndsInDigit(x: int)
    ensures IsDigit(ShowInt(x)[|ShowInt(x)| - 1])
  {
    if x < 0 {
      assert ShowInt(x)[|ShowInt(x)| - 1] == ShowNat(-x)[|ShowNat(-x)| - 1];
    }
  }

  /** No match starts right after a digit. */
  lemma SkipAfterDigit(s: string, i: nat)
    requires 0 < i < |s| && IsDigit(s[i - 1])
    ensures MatchFrom(s, i) == MatchFrom(s, i + 1)
  {
  }

  lemma SingleLabelRoundTrip(y: int)
    ensures MatchNumbers(Label(YearRange(y, y))) == [y]
  {
    var s := Label(YearRange(y, y));
    assert s[0..|s|] == s;
    MatchIntAt(s, 0, y);
  }

  lemma PairLabelShape(a: int, b: int)
    requires a != b
    ensures var s, ta, tb := Label(YearRange(a, b)), ShowInt(a), ShowInt(b);
      && |s| == |ta| + 1 + |tb|
      && s[0..|ta|] == ta && s[|ta|] == '-' && s[|ta| + 1..|s|] == tb
      && IsDigit(s[|ta| - 1])
  {
    var s, ta, tb := Label(YearRange(a, b)), ShowInt(a), ShowInt(b);
    assert s == ta + "-" + tb;
    ShowIntEndsInDigit(a);
    assert s[|ta| - 1] == ta[|ta| - 1];
  }

  lemma PairLabelRoundTrip(a: int, b: int)
    requires a != b
    ensures MatchNumbers(Label(YearRange(a, b))) == [a, b]
  {
    var s, ta, tb := Label(YearRange(a, b)), ShowInt(a), ShowInt(b);
    PairLabelShape(a, b);
    var p := |ta| + 1;
    assert !IsDigit(s[|ta|]);
    MatchIntAt(s, 0, a);
    SkipAfterDigit(s, |ta|);
    MatchIntAt(s, p, b);
    assert MatchFrom(s, p + |tb|) == [] by { assert p + |tb| == |s|; }
    calc {
      MatchFrom(s, 0);
      [a] + MatchFrom(s, |ta|);
      [a] + MatchFrom(s, p);
      [a] + ([b] + MatchFrom(s, p + |tb|));
      [a, b];
    }
  }

  /** A label reads back as its years: [start, end] for a range, [start] for a single year. */
  lemma LabelRoundTrip(r: YearRange)
    ensures r.start != r.end ==> MatchNumbers(Label(r)) == [r.start, r.end]
    ensures r.start == r.end ==> MatchNumbers(Label(r)) == [r.start]
  {
    if r.start == r.end {
      SingleLabelRoundTrip(r.start);
    } else {
      PairLabelRoundTrip(r.start, r.end);
    }
  }

  /** Distinct ranges have distinct labels, so the brush's label comparison
      identifies a row. */
  lemma LabelInjective(r1: YearRange, r2: YearRange)
    requires Label(r1) == Label(r2)
    ensures r1 == r2
  {
    LabelRoundTrip(r1);
    LabelRoundTrip(r2);
  }

  /** `[startYear, endYear]` as the click handler reads them from a label;
      `match` returning null makes the `.map` call throw. */
  function TickYears(tick: string): (r: Result<(int, Option<int>)>)
    ensures r.Ok? <==> MatchNumbers(tick) != []
  {
    var ns := MatchNumbers(tick);
    if ns == [] then Throws("TypeError: cannot read properties of null")
    else Ok((ns[0], if |ns| >= 2 then Some(ns[1]) else None))
  }

  /** A record's year lies in [start, end]; comparisons with NaN or with an
      undefined end are false. */
  predicate InYears(y: Option<int>, start: int, end: Option<int>) {
    y.Some? && end.Some? && start <= y.value <= end.value
  }

  /** `selectData`. */
  function SelectData(fs: seq<Feature>, start: int, end: Option<int>): (r: seq<Feature>)
    ensures forall i :: 0 <= i < |r| ==> r[i] in fs && InYears(YearKey(r[i]), start, end)
    ensures forall i :: 0 <= i < |fs| && InYears(YearKey(fs[i]), start, end) ==> fs[i] in r
    ensures IsSubsequence(r, fs)
    ensures end.None? ==> r == []
  {
    Filter(fs, (f: Feature) => InYears(YearKey(f), start, end))
  }

  /** The tick click handler: `Some(sel)` re-renders the view with `sel`,
      `None` leaves it as it is (nothing selected). */
  function TickClick(fs: seq<Feature>, tick: string): (r: Result<Option<seq<Feature>>>)
    ensures r.Throws? <==> MatchNumbers(tick) == []
    ensures r.Ok? && r.value.Some? ==> r.value.value != [] && IsSubsequence(r.value.value, fs)
  {
    match TickYears(tick)
    case Throws(e) => Throws(e)
    case Ok((start, end)) =>
      var sel := SelectData(fs, start, end);
      Ok(if sel == [] then None else Some(sel))
  }

  /** What a drill into [start, end] shows: exactly the records of those years. */
  predicate DrillsInto(fs: seq<Feature>, out: Option<seq<Feature>>, start: int, end: int) {
    && (out.None? <==> forall i :: 0 <= i < |fs| ==> !InYears(YearKey(fs[i]), start, Some(end)))
    && (out.Some? ==>
          && (forall i :: 0 <= i < |out.value| ==> InYears(YearKey(out.value[i]), start, Some(end)))
          && (forall i :: 0 <= i < |fs| && InYears(YearKey(fs[i]), start, Some(end)) ==> fs[i] in out.value)
          && IsSubsequence(out.value, fs))
  }

  /** Clicking a multi-year row label re-renders the view with exactly the
      records of that range, or does nothing when the range has none. */
  lemma TickDrillsIntoRange(fs: seq<Feature>, r: YearRange)
    requires r.start < r.end
    ensures TickClick(fs, Label(r)).Ok?
    ensures DrillsInto(fs, TickClick(fs, Label(r)).value, r.start, r.end)
  {
    LabelRoundTrip(r);
    var sel := SelectData(fs, r.start, Some(r.end));
    if sel != [] {
      assert InYears(YearKey(sel[0]), r.start, Some(r.end));
    }
  }

  /** As written: a single-year label yields no end year, so the click never
      selects anything and the view never drills into that year, even when
      it has records. */
  lemma SingleYearTickIgnored(fs: seq<Feature>, y: int)
    ensures TickClick(fs, Label(YearRange(y, y))) == Ok(None)
  {
    LabelRoundTrip(YearRange(y, y));
  }

  /** The evidently intended reading of a label: a single year is the range [y, y]. */
  function IntendedTickYears(tick: string): (r: Result<(int, int)>)
    ensures r.Ok? <==> MatchNumbers(tick) != []
  {
    var ns := MatchNumbers(tick);
    if ns == [] then Throws("TypeError: cannot read properties of null")
    else Ok((ns[0], if |ns| >= 2 then ns[1] else ns[0]))
  }

  function IntendedTickClick(fs: seq<Feature>, tick: string): Result<Option<seq<Feature>>> {
    match IntendedTickYears(tick)
    case Throws(e) => Throws(e)
    case Ok((start, end)) =>
      var sel := SelectData(fs, start, Some(end));
      Ok(if sel == [] then None else Some(sel))
  }

  /** With the intended reading every row label, single-year ones included,
      drills into exactly the records of its range. */
  lemma IntendedTickDrillsIntoRange(fs: seq<Feature>, r: YearRange)
    requires r.start <= r.end
    ensures IntendedTickClick(fs, Label(r)).Ok?
    ensures DrillsInto(fs, IntendedTickClick(fs, Label(r)).value, r.start, r.end)
  {
    LabelRoundTrip(r);
    var sel := SelectData(fs, r.start, Some(r.end));
    if sel != [] {
      assert InYears(YearKey(sel[0]), r.start, Some(r.end));
    }
  }

  // ---------------------------------------------------------------------
  // Aggregation of a year range

  /** `yearMonthData.filter(d => d.year >= startYear && d.year <= endYear)`. */
  function InRangeCells(cells: seq<Cell>, s: int, e: int): seq<Cell> {
    if cells == [] then []
    else (if s <= cells[0].year <= e then [cells[0]] else []) + InRangeCells(cells[1..], s, e)
  }

  lemma {:induction false} InRangeMembers(cells: seq<Cell>, s: int, e: int)
    ensures forall c :: c in InRangeCells(cells, s, e) <==> c in cells && s <= c.year <= e
  {
    if cells != [] {
      InRangeMembers(cells[1..], s, e);
      assert cells == [cells[0]] + cells[1..];
    }
  }

  /** The month of every cell, in order.
      Proof helper: its ensures restate the body for the lemmas that use it. */
  function MonthList(cells: seq<Cell>): (ms: seq<int>)
    ensures |ms| == |cells| && forall i :: 0 <= i < |cells| ==> ms[i] == cells[i].month
  {
    if cells == [] then [] else [cells[0].month] + MonthList(cells[1..])
  }

  /** Each cell as a (month, count) pair, in order.
      Proof helper: its ensures restate the body for the lemmas that use it. */
  function MonthWeights(cells: seq<Cell>): (w: seq<(int, nat)>)
    ensures |w| == |cells| && forall i :: 0 <= i < |cells| ==> w[i] == (cells[i].month, cells[i].count)
  {
    if cells == [] then [] else [(cells[0].month, cells[0].count)] + MonthWeights(cells[1..])
  }

  /** The months of the cells of [s, e], in first-seen order. */
  function RangeMonths(ymd: seq<Cell>, s: int, e: int): seq<int> {
    Dedup(MonthList(InRangeCells(ymd, s, e)))
  }

  lemma RangeMonthsCover(ymd: seq<Cell>, s: int, e: int)
    ensures forall c :: c in ymd && s <= c.year <= e ==> c.month in RangeMonths(ymd, s, e)
    ensures forall m :: m in RangeMonths(ymd, s, e) ==> MonthInRange(ymd, s, e, m)
  {
    var cells := InRangeCells(ymd, s, e);
    InRangeMembers(ymd, s, e);
    var ms := MonthList(cells);
    var months := Dedup(ms);
    forall c | c in ymd && s <= c.year <= e ensures c.month in months {
      assert c in cells;
      var k :| 0 <= k < |cells| && cells[k] == c;
      assert ms[k] == c.month;
    }
    forall m | m in months ensures MonthInRange(ymd, s, e, m) {
      var k :| 0 <= k < |ms| && ms[k] == m;
      var c := cells[k];
      assert c in cells;
      assert c in ymd && s <= c.year <= e && c.month == m;
    }
  }

  /** One entry per listed month, carrying that month's summed weight.
      Proof helper: its ensures restate the body for the lemmas that use it. */
  function MonthRows(months: seq<int>, w: seq<(int, nat)>): (data: seq<MonthCount>)
    ensures |data| == |months|
    ensures forall i :: 0 <= i < |months| ==> data[i] == MonthCount(months[i], WeightOf(w, months[i]))
  {
    if months == [] then [] else [MonthCount(months[0], WeightOf(w, months[0]))] + MonthRows(months[1..], w)
  }

  /** Some entry of `data` is for month `m`. */
  predicate HasMonth(data: seq<MonthCount>, m: int) {
    exists i :: 0 <= i < |data| && data[i].month == m
  }

  /** Some cell of [s, e] is for month `m`. */
  predicate MonthInRange(ymd: seq<Cell>, s: int, e: int, m: int) {
    exists c :: c in ymd && s <= c.year <= e && c.month == m
  }

  lemma MonthRowsCoverMonths(months: seq<int>, w: seq<(int, nat)>)
    ensures forall m :: m in months ==> HasMonth(MonthRows(months, w), m)
  {
    var data := MonthRows(months, w);
    forall m | m in months ensures HasMonth(data, m) {
      var i :| 0 <= i < |months| && months[i] == m;
      assert i < |data| && data[i].month == m;
    }
  }

  /** `aggregateDataByYearRange`: per month, in first-seen order, the sum of
      the counts of the cells of [s, e]. */
  function Aggregate(ymd: seq<Cell>, s: int, e: int): (data: seq<MonthCount>)
    ensures forall i, j :: 0 <= i < j < |data| ==> data[i].month != data[j].month
    ensures forall c :: c in ymd && s <= c.year <= e ==> HasMonth(data, c.month)
    ensures forall i :: 0 <= i < |data| ==> MonthInRange(ymd, s, e, data[i].month)
    ensures forall i :: 0 <= i < |data| ==>
              data[i].count == WeightOf(MonthWeights(InRangeCells(ymd, s, e)), data[i].month)
  {
    var months := RangeMonths(ymd, s, e);
    RangeMonthsCover(ymd, s, e);
    MonthRowsCoverMonths(months, MonthWeights(InRangeCells(ymd, s, e)));
    MonthRows(months, MonthWeights(InRangeCells(ymd, s, e)))
  }

  function RowTotal(data: seq<MonthCount>): nat {
    if data == [] then 0 else data[0].count + RowTotal(data[1..])
  }

  lemma {:induction false} RowTotalAsKeyedSum(months: seq<int>, w: seq<(int, nat)>)
    ensures RowTotal(MonthRows(months, w)) == SumOverKeys(months, w)
  {
    if months != [] {
      RowTotalAsKeyedSum(months[1..], w);
      assert MonthRows(months, w)[1..] == MonthRows(months[1..], w);
    }
  }

  lemma {:induction false} MonthWeightsTotal(cells: seq<Cell>)
    ensures Total(MonthWeights(cells)) == TotalCells(cells)
  {
    if cells != [] {
      MonthWeightsTotal(cells[1..]);
      assert MonthWeights(cells)[1..] == MonthWeights(cells[1..]);
    }
  }

  /** A row's month counts add up to the counts of the cells of its years. */
  lemma AggregatePreservesTotal(ymd: seq<Cell>, s: int, e: int)
    ensures RowTotal(Aggregate(ymd, s, e)) == TotalCells(InRangeCells(ymd, s, e))
  {
    var cells := InRangeCells(ymd, s, e);
    var months := RangeMonths(ymd, s, e);
    var w := MonthWeights(cells);
    assert Aggregate(ymd, s, e) == MonthRows(months, w);
    RowTotalAsKeyedSum(months, w);
    forall i | 0 <= i < |w| ensures w[i].0 in months {
      assert MonthList(cells)[i] == w[i].0;
    }
    KeyedSumIsTotal(months, w);
    MonthWeightsTotal(cells);
  }

  /** Sum of the counts of the cells whose year lies in [s, e]. */
  function RangeSum(cells: seq<Cell>, s: int, e: int): nat {
    if cells == [] then 0
    else (if s <= cells[0].year <= e then cells[0].count else 0) + RangeSum(cells[1..], s, e)
  }

  lemma {:induction false} InRangeTotal(cells: seq<Cell>, s: int, e: int)
    ensures TotalCells(InRangeCells(cells, s, e)) == RangeSum(cells, s, e)
  {
    if cells != [] {
      InRangeTotal(cells[1..], s, e);
      var rest := InRangeCells(cells[1..], s, e);
      if s <= cells[0].year <= e {
        assert ([cells[0]] + rest)[1..] == rest;
      } else {
        assert [] + rest == rest;
      }
    }
  }

  lemma {:induction false} SplitRangeSum(cells: seq<Cell>, s: int, m: int, e: int)
    requires s - 1 <= m <= e
    ensures RangeSum(cells, s, e) == RangeSum(cells, s, m) + RangeSum(cells, m + 1, e)
  {
    if cells != [] {
      SplitRangeSum(cells[1..], s, m, e);
    }
  }

  lemma {:induction false} SplitRangeTotal(cells: seq<Cell>, s: int, m: int, e: int)
    requires s - 1 <= m <= e
    ensures TotalCells(InRangeCells(cells, s, e))
         == TotalCells(InRangeCells(cells, s, m)) + TotalCells(InRangeCells(cells, m + 1, e))
  {
    InRangeTotal(cells, s, e);
    InRangeTotal(cells, s, m);
    InRangeTotal(cells, m + 1, e);
    SplitRangeSum(cells, s, m, e);
  }

  function RangesTotal(ymd: seq<Cell>, ranges: seq<YearRange>): nat {
    if ranges == [] then 0
    else TotalCells(InRangeCells(ymd, ranges[0].start, ranges[0].end)) + RangesTotal(ymd, ranges[1..])
  }

  /** Adjacent ranges split the total of their union. */
  lemma {:induction false} ChainTotal(ymd: seq<Cell>, ranges: seq<YearRange>)
    requires |ranges| >= 1
    requires forall i :: 0 <= i < |ranges| ==> ranges[i].start <= ranges[i].end
    requires forall i :: 0 <= i < |ranges| - 1 ==> ranges[i + 1].start == ranges[i].end + 1
    ensures ranges[0].start <= ranges[|ranges| - 1].end
    ensures RangesTotal(ymd, ranges) == TotalCells(InRangeCells(ymd, ranges[0].start, ranges[|ranges| - 1].end))
  {
    if |ranges| > 1 {
      var rest := ranges[1..];
      forall i | 0 <= i < |rest| ensures rest[i].start <= rest[i].end {
        assert rest[i] == ranges[i + 1];
      }
      forall i | 0 <= i < |rest| - 1 ensures rest[i + 1].start == rest[i].end + 1 {
        assert rest[i + 1] == ranges[i + 2] && rest[i] == ranges[i + 1];
      }
      ChainTotal(ymd, rest);
      assert ranges == [ranges[0]] + rest;
      ChainJoin(ymd, ranges[0], rest);
    }
  }

  /** A range placed right before a chain extends the chain's total. */
  lemma {:induction false} ChainJoin(ymd: seq<Cell>, r0: YearRange, rest: seq<YearRange>)
    requires |rest| >= 1 && r0.start <= r0.end && rest[0].start == r0.end + 1
    requires rest[0].start <= rest[|rest| - 1].end
    requires RangesTotal(ymd, rest) == TotalCells(InRangeCells(ymd, rest[0].start, rest[|rest| - 1].end))
    ensures RangesTotal(ymd, [r0] + rest) == TotalCells(InRangeCells(ymd, r0.start, rest[|rest| - 1].end))
  {
    var c, e := [r0] + rest, rest[|rest| - 1].end;
    assert c[0] == r0 && c[1..] == rest;
    var head := TotalCells(InRangeCells(ymd, r0.start, r0.end));
    var tail := TotalCells(InRangeCells(ymd, r0.end + 1, e));
    assert RangesTotal(ymd, c) == head + RangesTotal(ymd, rest);
    assert RangesTotal(ymd, rest) == tail;
    SplitRangeTotal(ymd, r0.start, r0.end, e);
  }

  lemma {:induction false} AllInRange(cells: seq<Cell>, lo: int, hi: int)
    requires forall i :: 0 <= i < |cells| ==> lo <= cells[i].year <= hi
    ensures InRangeCells(cells, lo, hi) == cells
  {
    if cells != [] {
      AllInRange(cells[1..], lo, hi);
      assert cells == [cells[0]] + cells[1..];
    }
  }

  function RowsTotal(rows: seq<RangeRow>): nat {
    if rows == [] then 0 else RowTotal(rows[0].data) + RowsTotal(rows[1..])
  }

  lemma {:induction false} RowsTotalOfAggregates(ymd: seq<Cell>, ranges: seq<YearRange>, rows: seq<RangeRow>)
    requires |rows| == |ranges|
    requires forall i :: 0 <= i < |rows| ==> rows[i].data == Aggregate(ymd, ranges[i].start, ranges[i].end)
    ensures RowsTotal(rows) == RangesTotal(ymd, ranges)
  {
    if rows != [] {
      AggregatePreservesTotal(ymd, ranges[0].start, ranges[0].end);
      RowsTotalOfAggregates(ymd, ranges[1..], rows[1..]);
    }
  }

  lemma {:induction false} NoKeysNoDatedRecords(fs: seq<Feature>)
    ensures KeyList(fs) == [] <==> forall i :: 0 <= i < |fs| ==> YearKey(fs[i]).None?
  {
    if fs != [] {
      NoKeysNoDatedRecords(fs[1..]);
      assert forall i :: 1 <= i < |fs| ==> fs[i] == fs[1..][i - 1];
    }
  }

  /** `render` up to the drawing: the zero-filled grid, the year ranges and
      the rows of `count_data`. */
  method Render(fs: seq<Feature>) returns (ymd: seq<Cell>, ranges: seq<YearRange>, countData: seq<RangeRow>)
    ensures IsYearMonthData(fs, ymd)
    ensures ranges == [] <==> forall i :: 0 <= i < |fs| ==> YearKey(fs[i]).None?
    ensures YearExtent(KeyList(fs)).Some? ==>
              var (lo, hi) := YearExtent(KeyList(fs)).value;
              Tiles(ranges, lo, hi, RangeSize(hi - lo))
    ensures |countData| == |ranges|
    ensures forall i :: 0 <= i < |ranges| ==>
              countData[i] == RangeRow(Label(ranges[i]), Aggregate(ymd, ranges[i].start, ranges[i].end))
    ensures RowsTotal(countData) == |Filter(fs, (f: Feature) => YearKey(f).Some?)|
  {
    ymd := BuildYearMonthData(fs);
    NoKeysNoDatedRecords(fs);
    var extent := YearExtent(KeyList(fs));
    if extent.None? {
      ranges := [];
      countData := [];
      GridCountsEveryDatedRecord(fs, ymd);
      return;
    }
    var (lo, hi) := extent.value;
    assert extent == Some((lo, hi));
    var size := RangeSize(hi - lo);
    ranges := CreateYearRanges(lo, hi, size);
    assert Tiles(ranges, lo, hi, size);
    countData := seq(|ranges|, i requires 0 <= i < |ranges| =>
                       RangeRow(Label(ranges[i]), Aggregate(ymd, ranges[i].start, ranges[i].end)));
    RenderTotal(fs, ymd, lo, hi, ranges, countData);
  }

  lemma RenderTotal(fs: seq<Feature>, ymd: seq<Cell>, lo: int, hi: int, ranges: seq<YearRange>, countData: seq<RangeRow>)
    requires IsYearMonthData(fs, ymd)
    requires YearExtent(KeyList(fs)) == Some((lo, hi))
    requires Tiles(ranges, lo, hi, RangeSize(hi - lo))
    requires |countData| == |ranges|
    requires forall i :: 0 <= i < |ranges| ==>
               countData[i] == RangeRow(Label(ranges[i]), Aggregate(ymd, ranges[i].start, ranges[i].end))
    ensures RowsTotal(countData) == |Filter(fs, (f: Feature) => YearKey(f).Some?)|
  {
    GridCountsEveryDatedRecord(fs, ymd);
    RowsTotalOfAggregates(ymd, ranges, countData);
    ChainTotal(ymd, ranges);
    AllInRange(ymd, lo, hi);
  }

  // ---------------------------------------------------------------------
  // The brush

  /** A brush selection `[[x0, y0], [x1, y1]]` (d3 orders the corners). */
  datatype Rect = Rect(x0: real, y0: real, x1: real, y1: real)

  /** The fill of a cell after brushing: the highlight green, or its count's colour. */
  datatype Fill = Highlight | Shade(count: nat)

  /** The overlap test of the brush: the band [pos, pos + width] meets [lo, hi]. */
  predicate BandHit(lo: real, hi: real, pos: real, width: real) {
    lo <= pos + width && pos <= hi
  }

  predicate Within(t: real, a: real, b: real) {
    a <= t <= b
  }

  /** The overlap test holds exactly when the brushed interval and the band share a point. */
  lemma BandHitMeansSharedPoint(lo: real, hi: real, pos: real, width: real)
    requires lo <= hi && 0.0 <= width
    ensures BandHit(lo, hi, pos, width) <==> exists t :: Within(t, lo, hi) && Within(t, pos, pos + width)
  {
    if BandHit(lo, hi, pos, width) {
      var t := if lo <= pos then pos else lo;
      assert Within(t, lo, hi) && Within(t, pos, pos + width);
    }
  }

  /** `d3.range(k, 12).filter(...)`: the months k..11 whose column the brush touches. */
  function SelectedMonthsFrom(k: nat, sel: Rect, colLeft: seq<real>, colWidth: real): (ms: seq<int>)
    requires k <= 12 && |colLeft| == 12
    ensures forall m :: m in ms <==> k <= m < 12 && BandHit(sel.x0, sel.x1, colLeft[m], colWidth)
    decreases 12 - k
  {
    if k == 12 then []
    else (if BandHit(sel.x0, sel.x1, colLeft[k], colWidth) then [k] else []) + SelectedMonthsFrom(k + 1, sel, colLeft, colWidth)
  }

  /** `selectedMonths`: the months 0..11 whose column the brush touches. */
  function SelectedMonths(sel: Rect, colLeft: seq<real>, colWidth: real): seq<int>
    requires |colLeft| == 12
  {
    SelectedMonthsFrom(0, sel, colLeft, colWidth)
  }

  /** The labels of `selectedRanges`: the rows whose band the brush touches. */
  function SelectedLabels(rows: seq<RangeRow>, sel: Rect, rowTop: seq<real>, rowHeight: real): (ls: seq<string>)
    requires |rowTop| == |rows|
    ensures forall l :: l in ls <==> exists k :: 0 <= k < |rows| && rows[k].range == l && BandHit(sel.y0, sel.y1, rowTop[k], rowHeight)
  {
    if rows == [] then []
    else
      var rest := SelectedLabels(rows[1..], sel, rowTop[1..], rowHeight);
      assert forall k :: 1 <= k < |rows| ==> rows[k] == rows[1..][k - 1] && rowTop[k] == rowTop[1..][k - 1];
      if BandHit(sel.y0, sel.y1, rowTop[0], rowHeight) then [rows[0].range] + rest else rest
  }

  /** `brushed`: `None` for a cleared brush (nothing repainted), otherwise the
      fill of every cell, row by row. A cell is highlighted when its row's
      label is a selected row's label and its month a selected month. */
  function Brushed(rows: seq<RangeRow>, rowTop: seq<real>, rowHeight: real, colLeft: seq<real>, colWidth: real,
                   sel: Option<Rect>): (r: Option<seq<seq<Fill>>>)
    requires |rowTop| == |rows| && |colLeft| == 12
    ensures sel.None? <==> r.None?
    ensures r.Some? ==> |r.value| == |rows| && forall i :: 0 <= i < |rows| ==> |r.value[i]| == |rows[i].data|
    ensures r.Some? ==> forall i, j :: 0 <= i < |rows| && 0 <= j < |rows[i].data| ==>
              r.value[i][j] == if rows[i].range in SelectedLabels(rows, sel.value, rowTop, rowHeight)
                                  && rows[i].data[j].month in SelectedMonths(sel.value, colLeft, colWidth)
                               then Highlight else Shade(rows[i].data[j].count)
  {
    match sel
    case None => None
    case Some(rect) =>
      var labels := SelectedLabels(rows, rect, rowTop, rowHeight);
      var months := SelectedMonths(rect, colLeft, colWidth);
      Some(seq(|rows|, i requires 0 <= i < |rows| =>
        seq(|rows[i].data|, j requires 0 <= j < |rows[i].data| =>
          if rows[i].range in labels && rows[i].data[j].month in months then Highlight
          else Shade(rows[i].data[j].count))))
  }

  /** With the rows of `render` (distinct ranges, hence distinct labels) a cell
      is highlighted exactly when the brush touches its own row band and its
      month's column. */
  lemma BrushHighlightsTouchedCells(fs: seq<Feature>, ymd: seq<Cell>, ranges: seq<YearRange>, rows: seq<RangeRow>,
                                    rowTop: seq<real>, rowHeight: real, colLeft: seq<real>, colWidth: real,
                                    rect: Rect, i: int, j: int)
    requires |rows| == |ranges| && |rowTop| == |rows| && |colLeft| == 12
    requires forall k :: 0 <= k < |ranges| ==> rows[k].range == Label(ranges[k])
    requires Distinct(ranges)
    requires 0 <= i < |rows| && 0 <= j < |rows[i].data|
    ensures Brushed(rows, rowTop, rowHeight, colLeft, colWidth, Some(rect)).value[i][j] == Highlight
            <==> && BandHit(rect.y0, rect.y1, rowTop[i], rowHeight)
                 && 0 <= rows[i].data[j].month < 12
                 && BandHit(rect.x0, rect.x1, colLeft[rows[i].data[j].month], colWidth)
  {
    var labels := SelectedLabels(rows, rect, rowTop, rowHeight);
    if rows[i].range in labels {
      var k :| 0 <= k < |rows| && rows[k].range == rows[i].range && BandHit(rect.y0, rect.y1, rowTop[k], rowHeight);
      LabelInjective(ranges[k], ranges[i]);
      assert k == i;
    }
  }
}
