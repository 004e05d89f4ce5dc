/** The earlier year-by-month heat map (frontend/date-selection.js): a
    count per (year, month) pair present in the data, flattened in the
    rollup's order, with a sorted year domain, a fixed month domain and a
    colour domain up to the largest count. */
module DateSelectionLegacy {
  import opened Wrappers
  import opened JsValues
  import opened Seqs

  /** A rollup key: `parseInt` of the year and of `Mo - 1`; `None` is NaN,
      which groups like any other key. */
  type Key = (Option<int>, Option<int>)

  function YearOf(f: Feature): Option<int> {
    ParseInt(Get(f.properties, "Year"))
  }

  /** `parseInt(d.properties.Mo - 1)`: the subtraction converts the month to
      a number first, so a missing month is NaN. */
  function MonthOf(f: Feature): Option<int> {
    match ToNumber(Get(f.properties, "Mo"))
    case None => None
    case Some(r) => Some(Trunc(r - 1.0))
  }

  /** Calendar months 1..12 become the 0-based keys 0..11. */
  lemma MonthOfCalendarMonth(f: Feature, mo: int)
    requires 1 <= mo <= 12
    requires Get(f.properties, "Mo") == Some(Num(mo as real)) || Get(f.properties, "Mo") == Some(Text(Decimal.ShowNat(mo)))
    ensures MonthOf(f) == Some(mo - 1) && (mo - 1) in MonthDomain
  {
    if Get(f.properties, "Mo") == Some(Text(Decimal.ShowNat(mo))) {
      Decimal.ShowIntRoundTrip(mo);
      assert Decimal.ShowInt(mo) == Decimal.ShowNat(mo);
      assert ToNumber(Get(f.properties, "Mo")) == Some(mo as real);
    }
    assert Trunc(mo as real - 1.0) == mo - 1;
  }

  /** Every record's key, each with weight 1, in record order. */
  function Tally(fs: seq<Feature>): (r: seq<(Key, nat)>)
  {
    seq(|fs|, i requires 0 <= i < |fs| => ((YearOf(fs[i]), MonthOf(fs[i])), 1))
  }

  /** The tally is a count: the weight it gives a key is the number of
      records with that key. */
  lemma {:induction false} TallyCountsRecords(fs: seq<Feature>, k: Key)
    ensures WeightOf(Tally(fs), k) == |Filter(fs, (f: Feature) => (YearOf(f), MonthOf(f)) == k)|
    decreases |fs|
  {
    if fs != [] {
      TallyCountsRecords(fs[1..], k);
      assert Tally(fs)[1..] == Tally(fs[1..]);
    }
  }

  /** Some record has key `k`. */
  predicate HasKey(t: seq<(Key, nat)>, k: Key) {
    exists i :: 0 <= i < |t| && t[i].0 == k
  }

  lemma HasKeyTail(t: seq<(Key, nat)>, k: Key)
    requires t != []
    ensures HasKey(t, k) <==> t[0].0 == k || HasKey(t[1..], k)
  {
    if HasKey(t, k) {
      var i :| 0 <= i < |t| && t[i].0 == k;
      if i > 0 {
        assert t[1..][i - 1].0 == k;
      }
    }
    if HasKey(t[1..], k) {
      var i :| 0 <= i < |t[1..]| && t[1..][i].0 == k;
      assert t[i + 1].0 == k;
    }
  }

  lemma {:induction false} TallyTotal(t: seq<(Key, nat)>)
    requires forall i :: 0 <= i < |t| ==> t[i].1 == 1
    ensures Total(t) == |t|
  {
    if t != [] {
      TallyTotal(t[1..]);
    }
  }

  lemma {:induction false} WeightOfPresent(t: seq<(Key, nat)>, k: Key)
    requires forall i :: 0 <= i < |t| ==> t[i].1 == 1
    ensures HasKey(t, k) <==> WeightOf(t, k) >= 1
  {
    if t != [] {
      WeightOfPresent(t[1..], k);
      HasKeyTail(t, k);
    }
  }

  function YearColumn(t: seq<(Key, nat)>): (r: seq<Option<int>>)
  {
    seq(|t|, i requires 0 <= i < |t| => t[i].0.0)
  }

  /** The years seen, in the order they are first seen. */
  function Years(t: seq<(Key, nat)>): seq<Option<int>> {
    Dedup(YearColumn(t))
  }

  /** The months seen with year `y`, in the order they are first seen. */
  function MonthsOfYear(t: seq<(Key, nat)>, y: Option<int>): seq<Option<int>> {
    Dedup(MonthsWithYear(t, y))
  }

  function MonthsWithYear(t: seq<(Key, nat)>, y: Option<int>): (r: seq<Option<int>>)
    ensures forall m :: m in r <==> HasKey(t, (y, m))
  {
    if t == [] then []
    else
      var rest := MonthsWithYear(t[1..], y);
      assert forall m :: HasKey(t, (y, m)) <==> t[0].0 == (y, m) || HasKey(t[1..], (y, m)) by {
        forall m
          ensures HasKey(t, (y, m)) <==> t[0].0 == (y, m) || HasKey(t[1..], (y, m))
        {
          HasKeyTail(t, (y, m));
        }
      }
      if t[0].0.0 == y then [t[0].0.1] + rest else rest
  }

  /** The keys of one year's block, in the order the inner loop visits them. */
  function Block(t: seq<(Key, nat)>, y: Option<int>): (r: seq<Key>)
    ensures |r| == |MonthsOfYear(t, y)|
    ensures forall j :: 0 <= j < |r| ==> r[j] == (y, MonthsOfYear(t, y)[j])
  {
    var ms := MonthsOfYear(t, y);
    seq(|ms|, j requires 0 <= j < |ms| => (y, ms[j]))
  }

  /** The keys of the blocks of the years `ys`, one block after another. */
  function Pairs(t: seq<(Key, nat)>, ys: seq<Option<int>>): seq<Key> {
    if ys == [] then [] else Block(t, ys[0]) + Pairs(t, ys[1..])
  }

  lemma {:induction false} PairsAppend(t: seq<(Key, nat)>, ys: seq<Option<int>>, y: Option<int>)
    ensures Pairs(t, ys + [y]) == Pairs(t, ys) + Block(t, y)
  {
    if ys == [] {
      assert Pairs(t, [y]) == Block(t, y) + Pairs(t, []);
    } else {
      assert (ys + [y])[1..] == ys[1..] + [y];
      PairsAppend(t, ys[1..], y);
    }
  }

  lemma BlockMembers(t: seq<(Key, nat)>, y: Option<int>, k: Key)
    ensures k in Block(t, y) <==> k.0 == y && HasKey(t, k)
  {
    var b := Block(t, y);
    var ms := MonthsOfYear(t, y);
    if k in b {
      var j :| 0 <= j < |b| && b[j] == k;
      assert ms[j] in MonthsWithYear(t, y);
    }
    if k.0 == y && HasKey(t, k) {
      assert k.1 in MonthsWithYear(t, y);
      var j :| 0 <= j < |ms| && ms[j] == k.1;
      assert b[j] == k;
    }
  }

  /** A key is in the blocks of `ys` exactly when its year is one of `ys`
      and some record has that key. */
  lemma {:induction false} PairsMembers(t: seq<(Key, nat)>, ys: seq<Option<int>>, k: Key)
    ensures k in Pairs(t, ys) <==> k.0 in ys && HasKey(t, k)
  {
    if ys != [] {
      PairsMembers(t, ys[1..], k);
      BlockMembers(t, ys[0], k);
      assert k.0 in ys <==> k.0 == ys[0] || k.0 in ys[1..];
    }
  }

  lemma BlockDistinct(t: seq<(Key, nat)>, y: Option<int>)
    ensures Distinct(Block(t, y))
  {
    var b := Block(t, y);
    var ms := MonthsOfYear(t, y);
    forall i, j | 0 <= i < j < |b|
      ensures b[i] != b[j]
    {
      assert b[i].1 == ms[i] && b[j].1 == ms[j];
    }
  }

  /** Blocks of distinct years hold distinct keys. */
  lemma {:induction false} PairsDistinct(t: seq<(Key, nat)>, ys: seq<Option<int>>)
    requires Distinct(ys)
    ensures Distinct(Pairs(t, ys))
  {
    if ys != [] {
      assert Distinct(ys[1..]);
      PairsDistinct(t, ys[1..]);
      BlockDistinct(t, ys[0]);
      var b := Block(t, ys[0]);
      var rest := Pairs(t, ys[1..]);
      forall j | 0 <= j < |rest|
        ensures rest[j].0 != ys[0]
      {
        PairsMembers(t, ys[1..], rest[j]);
      }
      var p := b + rest;
      forall i, j | 0 <= i < j < |p|
        ensures p[i] != p[j]
      {
        if j < |b| {
        } else if i < |b| {
          assert p[j] == rest[j - |b|];
          assert p[i].0 == ys[0];
        } else {
          assert p[i] == rest[i - |b|] && p[j] == rest[j - |b|];
        }
      }
    }
  }

  /** One flattened entry `{year, month, count}`. */
  datatype Entry = Entry(year: Option<int>, month: Option<int>, count: nat)

  function EntryOf(t: seq<(Key, nat)>, k: Key): Entry {
    Entry(k.0, k.1, WeightOf(t, k))
  }

  function Entries(t: seq<(Key, nat)>, ks: seq<Key>): (r: seq<Entry>)
  {
    seq(|ks|, i requires 0 <= i < |ks| => EntryOf(t, ks[i]))
  }

  /** The flattened entries the rollup yields for the records `fs`. */
  function Flattened(fs: seq<Feature>): seq<Entry> {
    var t := Tally(fs);
    Entries(t, Pairs(t, Years(t)))
  }

  lemma EntriesAppend(t: seq<(Key, nat)>, a: seq<Key>, b: seq<Key>)
    ensures Entries(t, a + b) == Entries(t, a) + Entries(t, b)
  {
  }

  /** The inner loop: one entry per month of year `y`, in first-seen order. */
  method FlattenYear(t: seq<(Key, nat)>, y: Option<int>) returns (block: seq<Entry>)
    ensures block == Entries(t, Block(t, y))
  {
    var months := MonthsOfYear(t, y);
    ghost var b := Block(t, y);
    block := [];
    for j := 0 to |months|
      invariant |block| == j
      invariant forall i :: 0 <= i < j ==> block[i] == EntryOf(t, b[i])
    {
      block := block + [Entry(y, months[j], WeightOf(t, (y, months[j])))];
    }
  }

  /** One more year of the outer loop appends that year's block. */
  lemma FlattenStep(t: seq<(Key, nat)>, years: seq<Option<int>>, i: nat)
    requires i < |years|
    ensures Entries(t, Pairs(t, years[..i + 1])) == Entries(t, Pairs(t, years[..i])) + Entries(t, Block(t, years[i]))
  {
    assert years[..i + 1] == years[..i] + [years[i]];
    PairsAppend(t, years[..i], years[i]);
    EntriesAppend(t, Pairs(t, years[..i]), Block(t, years[i]));
  }

  /** The outer loop over the years `years`, each followed by its block. */
  method FlattenYears(t: seq<(Key, nat)>, years: seq<Option<int>>) returns (ymd: seq<Entry>)
    ensures ymd == Entries(t, Pairs(t, years))
  {
    ymd := [];
    for i := 0 to |years|
      invariant ymd == Entries(t, Pairs(t, years[..i]))
    {
      var block := FlattenYear(t, years[i]);
      FlattenStep(t, years, i);
      ymd := ymd + block;
    }
    assert years[..|years|] == years;
  }

  /** The rollup's two nested loops: every year in first-seen order, and
      within it every month in first-seen order, pushed with its count. */
  method Flatten(fs: seq<Feature>) returns (ymd: seq<Entry>)
    ensures ymd == Flattened(fs)
  {
    var t := Tally(fs);
    ymd := FlattenYears(t, Years(t));
  }

  function SumCounts(ymd: seq<Entry>): nat {
    if ymd == [] then 0 else ymd[0].count + SumCounts(ymd[1..])
  }

  lemma {:induction false} SumCountsIsKeyedSum(t: seq<(Key, nat)>, ks: seq<Key>)
    ensures SumCounts(Entries(t, ks)) == SumOverKeys(ks, t)
  {
    if ks != [] {
      assert Entries(t, ks)[1..] == Entries(t, ks[1..]);
      SumCountsIsKeyedSum(t, ks[1..]);
    }
  }

  /** The keys listed are exactly the keys of the records. */
  lemma PairsAreRecordKeys(t: seq<(Key, nat)>, k: Key)
    ensures k in Pairs(t, Years(t)) <==> HasKey(t, k)
  {
    PairsMembers(t, Years(t), k);
    if HasKey(t, k) {
      var i :| 0 <= i < |t| && t[i].0 == k;
      assert YearColumn(t)[i] == k.0;
    }
  }

  predicate Listed(ymd: seq<Entry>, k: Key) {
    exists i :: 0 <= i < |ymd| && (ymd[i].year, ymd[i].month) == k
  }

  predicate Recorded(fs: seq<Feature>, k: Key) {
    exists i :: 0 <= i < |fs| && (YearOf(fs[i]), MonthOf(fs[i])) == k
  }

  /** One entry for each (year, month) pair that some record has, and for
      no other pair. */
  lemma FlattenListsRecordedPairs(fs: seq<Feature>, k: Key)
    ensures Listed(Flattened(fs), k) <==> Recorded(fs, k)
  {
    var t := Tally(fs);
    var ks := Pairs(t, Years(t));
    var ymd := Flattened(fs);
    PairsAreRecordKeys(t, k);
    if Recorded(fs, k) {
      var i :| 0 <= i < |fs| && (YearOf(fs[i]), MonthOf(fs[i])) == k;
      assert t[i].0 == k;
      var j :| 0 <= j < |ks| && ks[j] == k;
      assert (ymd[j].year, ymd[j].month) == k;
    }
    if Listed(ymd, k) {
      var i :| 0 <= i < |ymd| && (ymd[i].year, ymd[i].month) == k;
      assert ks[i] == k;
      var j :| 0 <= j < |t| && t[j].0 == k;
      assert (YearOf(fs[j]), MonthOf(fs[j])) == k;
    }
  }

  /** No (year, month) pair is listed twice, and each count is at least 1. */
  lemma FlattenDistinctPositive(fs: seq<Feature>)
    ensures var ymd := Flattened(fs);
      (forall i, j :: 0 <= i < j < |ymd| ==> (ymd[i].year, ymd[i].month) != (ymd[j].year, ymd[j].month))
      && forall i :: 0 <= i < |ymd| ==> ymd[i].count >= 1
  {
    var t := Tally(fs);
    var ks := Pairs(t, Years(t));
    var ymd := Flattened(fs);
    assert |ymd| == |ks|;
    PairsDistinct(t, Years(t));
    forall i, j | 0 <= i < j < |ymd|
      ensures (ymd[i].year, ymd[i].month) != (ymd[j].year, ymd[j].month)
    {
      assert ymd[i] == EntryOf(t, ks[i]) && ymd[j] == EntryOf(t, ks[j]);
    }
    forall i | 0 <= i < |ymd|
      ensures ymd[i].count >= 1
    {
      assert ymd[i] == EntryOf(t, ks[i]);
      PairsAreRecordKeys(t, ks[i]);
      WeightOfPresent(t, ks[i]);
    }
  }

  /** The counts add up to the number of records. */
  lemma FlattenCountsEveryRecord(fs: seq<Feature>)
    ensures SumCounts(Flattened(fs)) == |fs|
  {
    var t := Tally(fs);
    var ks := Pairs(t, Years(t));
    PairsDistinct(t, Years(t));
    SumCountsIsKeyedSum(t, ks);
    forall i | 0 <= i < |t|
      ensures t[i].0 in ks
    {
      PairsAreRecordKeys(t, t[i].0);
    }
    KeyedSumIsTotal(ks, t);
    TallyTotal(t);
  }

  /** `d3.range(0, 12)`: the month columns. */
  const MonthDomain: seq<int> := [0, 1, 2, 3, 4, 5, 6, 7, 8, 9, 10, 11]

  predicate Sorted(xs: seq<int>) {
    forall i, j :: 0 <= i < j < |xs| ==> xs[i] <= xs[j]
  }

  /** `x` inserted into the sorted list `xs` before its first larger element. */
  function Insert(x: int, xs: seq<int>): (r: seq<int>)
    requires Sorted(xs)
    ensures Sorted(r) && multiset(r) == multiset(xs) + multiset{x}
    ensures forall z :: z in r ==> z == x || z in xs
  {
    if xs == [] then [x]
    else if x <= xs[0] then [x] + xs
    else
      var rest := Insert(x, xs[1..]);
      assert xs == [xs[0]] + xs[1..];
      forall k | 0 <= k < |rest|
        ensures xs[0] <= rest[k]
      {
        assert rest[k] in rest;
        if rest[k] != x {
          var j :| 0 <= j < |xs[1..]| && xs[1..][j] == rest[k];
          assert xs[j + 1] == rest[k];
        }
      }
      [xs[0]] + rest
  }

  /** `.sort((a, b) => a - b)` on numbers. */
  function SortAscending(xs: seq<int>): (r: seq<int>)
    ensures Sorted(r) && multiset(r) == multiset(xs)
  {
    if xs == [] then []
    else
      assert xs == [xs[0]] + xs[1..];
      Insert(xs[0], SortAscending(xs[1..]))
  }

  function NumericYears(ys: seq<Option<int>>): (r: seq<int>)
    ensures forall y :: y in r <==> Some(y) in ys
  {
    if ys == [] then []
    else
      assert forall y :: Some(y) in ys <==> Some(y) == ys[0] || Some(y) in ys[1..];
      (if ys[0].Some? then [ys[0].value] else []) + NumericYears(ys[1..])
  }

  /** The year rows: the distinct numeric years of the entries, ascending. */
  function YearDomain(ymd: seq<Entry>): seq<int> {
    SortAscending(NumericYears(Dedup(EntryYears(ymd))))
  }

  lemma {:induction false} NumericYearsDistinct(ys: seq<Option<int>>)
    requires Distinct(ys)
    ensures Distinct(NumericYears(ys))
  {
    if ys != [] {
      assert Distinct(ys[1..]);
      NumericYearsDistinct(ys[1..]);
      var rest := NumericYears(ys[1..]);
      if ys[0].Some? {
        assert ys[0] !in ys[1..];
        assert ys[0].value !in rest;
      }
    }
  }

  lemma DistinctMultiset(xs: seq<int>, ys: seq<int>)
    requires Distinct(xs) && multiset(xs) == multiset(ys)
    ensures Distinct(ys)
  {
    forall i, j | 0 <= i < j < |ys|
      ensures ys[i] != ys[j]
    {
      if ys[i] == ys[j] {
        assert multiset(ys)[ys[i]] >= 2 by {
          assert ys == ys[..i] + [ys[i]] + ys[i + 1..j] + [ys[j]] + ys[j + 1..];
        }
        DistinctCount(xs, ys[i]);
      }
    }
  }

  lemma {:induction false} DistinctCount(xs: seq<int>, v: int)
    requires Distinct(xs)
    ensures multiset(xs)[v] <= 1
  {
    if xs != [] {
      assert xs == [xs[0]] + xs[1..];
      assert Distinct(xs[1..]);
      DistinctCount(xs[1..], v);
      if xs[0] == v {
        assert v !in xs[1..];
      }
    }
  }

  function EntryYears(ymd: seq<Entry>): (r: seq<Option<int>>)
  {
    seq(|ymd|, i requires 0 <= i < |ymd| => ymd[i].year)
  }

  /** The year rows are strictly increasing: each year gets one row. */
  lemma YearDomainIncreasing(ymd: seq<Entry>)
    ensures var d := YearDomain(ymd);
      forall i, j :: 0 <= i < j < |d| ==> d[i] < d[j]
  {
    var nums := NumericYears(Dedup(EntryYears(ymd)));
    assert YearDomain(ymd) == SortAscending(nums);
    NumericYearsDistinct(Dedup(EntryYears(ymd)));
    DistinctMultiset(nums, YearDomain(ymd));
  }

  /** The year rows are exactly the numeric years of the entries. */
  lemma YearDomainExact(ymd: seq<Entry>, y: int)
    ensures y in YearDomain(ymd) <==> exists i :: 0 <= i < |ymd| && ymd[i].year == Some(y)
  {
    var ys := EntryYears(ymd);
    var nums := NumericYears(Dedup(ys));
    assert YearDomain(ymd) == SortAscending(nums);
    assert y in YearDomain(ymd) <==> y in multiset(YearDomain(ymd));
    assert y in nums <==> y in multiset(nums);
    if exists i :: 0 <= i < |ymd| && ymd[i].year == Some(y) {
      var i :| 0 <= i < |ymd| && ymd[i].year == Some(y);
      assert ys[i] == Some(y);
    }
  }

  predicate HasCount(ymd: seq<Entry>, c: nat) {
    exists i :: 0 <= i < |ymd| && ymd[i].count == c
  }

  /** `d3.extent(yearMonthData, d => d.count)[1]`: `undefined` without
      entries, otherwise the largest count; the colour domain is `[0, it]`. */
  function MaxCount(ymd: seq<Entry>): (r: Option<nat>)
    ensures r.None? <==> ymd == []
    ensures r.Some? ==> HasCount(ymd, r.value) && forall i :: 0 <= i < |ymd| ==> ymd[i].count <= r.value
  {
    if ymd == [] then None
    else
      var rest := MaxCount(ymd[1..]);
      assert forall i :: 1 <= i < |ymd| ==> ymd[i] == ymd[1..][i - 1];
      assert rest.Some? ==> HasCount(ymd, rest.value) by {
        if rest.Some? {
          var i :| 0 <= i < |ymd[1..]| && ymd[1..][i].count == rest.value;
          assert ymd[i + 1].count == rest.value;
        }
      }
      if rest.None? || ymd[0].count > rest.value then Some(ymd[0].count) else rest
  }

  /** `render(plots, features)`: the entries, the row and column domains
      and the upper end of the colour domain. */
  method Render(fs: seq<Feature>) returns (ymd: seq<Entry>, years: seq<int>, months: seq<int>, colourTop: Option<nat>)
    ensures ymd == Flattened(fs)
    ensures years == YearDomain(ymd) && months == MonthDomain && colourTop == MaxCount(ymd)
    ensures colourTop.None? <==> fs == []
  {
    ymd := Flatten(fs);
    years := YearDomain(ymd);
    months := MonthDomain;
    colourTop := MaxCount(ymd);
    if fs != [] {
      FlattenListsRecordedPairs(fs, (YearOf(fs[0]), MonthOf(fs[0])));
    }
  }
}
