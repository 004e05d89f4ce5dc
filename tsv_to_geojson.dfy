/** The offline converter (tsv_to_geojson.py): every table row with usable
    coordinates becomes a GeoJSON point feature carrying the row's non-null
    columns; every other row is skipped. */
module TsvToGeoJson {
  import opened Wrappers
  import opened JsValues

  /** One table cell: missing (`NaN`/`None`, what `pd.notnull` rejects), a
      number, or text. */
  datatype Cell = Null | PyNum(n: real) | PyText(s: string)

  /** A data frame: column names and rows of cells, one cell per column. */
  datatype Table = Table(columns: seq<string>, rows: seq<seq<Cell>>)

  predicate Rectangular(t: Table) {
    forall i :: 0 <= i < |t.rows| ==> |t.rows[i]| == |t.columns|
  }

  /** `row[name]`: a missing column raises `KeyError`; a name held by two
      columns yields a series, whose truth value raises `ValueError` in the
      `notnull` test; otherwise the one cell. */
  datatype Lookup = Missing | Ambiguous | Found(cell: Cell)

  ghost predicate ColumnAt(columns: seq<string>, name: string, i: int) {
    0 <= i < |columns| && columns[i] == name
  }

  /** Column `i` is the only one called `name`. */
  ghost predicate OnlyColumnAt(columns: seq<string>, name: string, i: int) {
    ColumnAt(columns, name, i) && forall j :: ColumnAt(columns, name, j) ==> j == i
  }

  function Find(columns: seq<string>, row: seq<Cell>, name: string): (r: Lookup)
    requires |row| == |columns|
    ensures r.Missing? <==> name !in columns
    ensures r.Found? <==> exists i :: OnlyColumnAt(columns, name, i)
    ensures r.Found? ==> forall i :: OnlyColumnAt(columns, name, i) ==> row[i] == r.cell
    ensures r.Ambiguous? <==> exists i, j :: ColumnAt(columns, name, i) && ColumnAt(columns, name, j) && i != j
  {
    if columns == [] then Missing
    else
      var rest := Find(columns[1..], row[1..], name);
      assert forall i :: 0 <= i ==> (ColumnAt(columns[1..], name, i) <==> ColumnAt(columns, name, i + 1));
      assert forall i :: ColumnAt(columns, name, i) ==> i == 0 || ColumnAt(columns[1..], name, i - 1);
      if columns[0] != name then
        assert forall i :: OnlyColumnAt(columns, name, i) ==> OnlyColumnAt(columns[1..], name, i - 1);
        assert forall i :: OnlyColumnAt(columns[1..], name, i) ==> OnlyColumnAt(columns, name, i + 1);
        rest
      else if rest.Missing? then
        assert OnlyColumnAt(columns, name, 0);
        Found(row[0])
      else
        assert ColumnAt(columns, name, 0);
        assert exists j :: ColumnAt(columns[1..], name, j);
        Ambiguous
  }

  /** `float(cell)`: numbers convert, text goes through the parse the
      runtime supplies (`parse` returns `None` where Python raises
      `ValueError`). */
  function ToFloat(c: Cell, parse: string -> Option<real>): Option<real> {
    match c
    case Null => None
    case PyNum(n) => Some(n)
    case PyText(s) => parse(s)
  }

  function ValueOf(c: Cell): Value
    requires c != Null
  {
    match c
    case PyNum(n) => Num(n)
    case PyText(s) => Text(s)
  }

  predicate NonNullAt(columns: seq<string>, row: seq<Cell>, i: int, p: Prop) {
    0 <= i < |columns| && i < |row| && row[i] != Null && p == Prop(columns[i], ValueOf(row[i]))
  }

  predicate FromNonNullCell(columns: seq<string>, row: seq<Cell>, p: Prop) {
    exists i :: 0 <= i < |columns| && NonNullAt(columns, row, i, p)
  }

  /** `row.dropna().to_dict()`: the non-null cells keyed by their column, in
      column order. */
  function NonNull(columns: seq<string>, row: seq<Cell>): (r: seq<Prop>)
    requires |row| == |columns|
    ensures |r| <= |columns|
    ensures forall p :: p in r <==> FromNonNullCell(columns, row, p)
  {
    if columns == [] then []
    else
      var rest := NonNull(columns[1..], row[1..]);
      assert forall i, p :: 0 <= i ==> (NonNullAt(columns[1..], row[1..], i, p) <==> NonNullAt(columns, row, i + 1, p));
      assert forall p :: FromNonNullCell(columns, row, p) <==> NonNullAt(columns, row, 0, p) || FromNonNullCell(columns[1..], row[1..], p) by {
        forall p | FromNonNullCell(columns, row, p)
          ensures NonNullAt(columns, row, 0, p) || FromNonNullCell(columns[1..], row[1..], p)
        {
          var i :| 0 <= i < |columns| && NonNullAt(columns, row, i, p);
          if i > 0 {
            assert row[1..][i - 1] == row[i] && columns[1..][i - 1] == columns[i];
            assert NonNullAt(columns[1..], row[1..], i - 1, p);
          }
        }
      }
      (if row[0] != Null then [Prop(columns[0], ValueOf(row[0]))] else []) + rest
  }

  /** The number of non-null cells of a row. */
  function NonNullCount(cells: seq<Cell>): nat {
    if cells == [] then 0 else (if cells[0] != Null then 1 else 0) + NonNullCount(cells[1..])
  }

  /** Property `p` is the `i`-th entry in column order: it comes from a
      non-null column preceded by exactly `i` non-null cells. */
  predicate EntryFrom(columns: seq<string>, row: seq<Cell>, i: int, p: Prop) {
    exists k :: 0 <= k < |columns| && k <= |row| && NonNullAt(columns, row, k, p) && NonNullCount(row[..k]) == i
  }

  /** The properties hold one entry per non-null cell, in column order. */
  lemma {:induction false} NonNullInColumnOrder(columns: seq<string>, row: seq<Cell>)
    requires |row| == |columns|
    ensures |NonNull(columns, row)| == NonNullCount(row)
    ensures forall i :: 0 <= i < |NonNull(columns, row)| ==> EntryFrom(columns, row, i, NonNull(columns, row)[i])
    decreases |columns|
  {
    if columns != [] {
      var tailCols, tailRow := columns[1..], row[1..];
      NonNullInColumnOrder(tailCols, tailRow);
      var rest := NonNull(tailCols, tailRow);
      var head := if row[0] != Null then [Prop(columns[0], ValueOf(row[0]))] else [];
      assert NonNull(columns, row) == head + rest;
      forall i | 0 <= i < |rest|
        ensures EntryFrom(columns, row, |head| + i, rest[i])
      {
        var k :| 0 <= k < |tailCols| && k <= |tailRow| && NonNullAt(tailCols, tailRow, k, rest[i])
          && NonNullCount(tailRow[..k]) == i;
        assert row[..k + 1] == [row[0]] + tailRow[..k];
        assert row[..k + 1][1..] == tailRow[..k];
        assert tailRow[k] == row[k + 1] && tailCols[k] == columns[k + 1];
        assert NonNullAt(columns, row, k + 1, rest[i]);
      }
      if row[0] != Null {
        assert row[..0] == [];
        assert NonNullAt(columns, row, 0, head[0]);
      }
    }
  }

  /** The coordinate the row yields under the column `name`: present,
      unique, non-null and convertible. */
  function Coordinate(t: Table, row: seq<Cell>, name: string, parse: string -> Option<real>): Option<real>
    requires |row| == |t.columns|
  {
    match Find(t.columns, row, name)
    case Found(c) => if c == Null then None else ToFloat(c, parse)
    case _ => None
  }

  /** The feature one row becomes, or `None` when the row is skipped: a row
      is kept exactly when both coordinate columns exist once each, hold
      non-null cells and convert to numbers; its point is `[longitude,
      latitude]` and its properties are exactly its non-null columns. */
  function RowFeature(t: Table, row: seq<Cell>, lat: string, lon: string, parse: string -> Option<real>): (r: Option<Feature>)
    requires |row| == |t.columns|
    ensures r.Some? <==>
      (Find(t.columns, row, lat).Found? && Find(t.columns, row, lat).cell != Null
       && ToFloat(Find(t.columns, row, lat).cell, parse).Some?
       && Find(t.columns, row, lon).Found? && Find(t.columns, row, lon).cell != Null
       && ToFloat(Find(t.columns, row, lon).cell, parse).Some?)
    ensures r.Some? ==>
      Some(r.value.geometry.x) == ToFloat(Find(t.columns, row, lon).cell, parse)
      && Some(r.value.geometry.y) == ToFloat(Find(t.columns, row, lat).cell, parse)
      && forall p :: p in r.value.properties <==> FromNonNullCell(t.columns, row, p)
  {
    match (Coordinate(t, row, lat, parse), Coordinate(t, row, lon, parse))
    case (Some(y), Some(x)) => Some(Feature(Point(x, y), NonNull(t.columns, row)))
    case _ => None
  }

  /** The features of the first rows `rows`, in row order. */
  function Converted(t: Table, rows: seq<seq<Cell>>, lat: string, lon: string, parse: string -> Option<real>): seq<Feature>
    requires forall i :: 0 <= i < |rows| ==> |rows[i]| == |t.columns|
  {
    if rows == [] then []
    else
      var last := rows[|rows| - 1];
      Converted(t, rows[..|rows| - 1], lat, lon, parse)
        + match RowFeature(t, last, lat, lon, parse) case Some(f) => [f] case None => []
  }

  datatype FeatureCollection = FeatureCollection(features: seq<Feature>)

  /** `dataframe_to_geojson_exclude_null_coords(df, lat, lon)`. */
  method ToGeoJson(t: Table, lat: string, lon: string, parse: string -> Option<real>) returns (r: FeatureCollection)
    requires Rectangular(t)
    ensures r == FeatureCollection(Converted(t, t.rows, lat, lon, parse))
  {
    var features := [];
    for i := 0 to |t.rows|
      invariant features == Converted(t, t.rows[..i], lat, lon, parse)
    {
      var row := t.rows[i];
      assert t.rows[..i + 1][..i] == t.rows[..i];
      match RowFeature(t, row, lat, lon, parse)
      case Some(f) =>
        features := features + [f];
      case None =>
    }
    assert t.rows[..|t.rows|] == t.rows;
    r := FeatureCollection(features);
  }

  /** Converting two runs of rows one after the other gives the features of
      the first run followed by those of the second: a skipped row never
      affects the rows around it, and the order is kept. */
  lemma {:induction false} ConvertedAppend(t: Table, a: seq<seq<Cell>>, b: seq<seq<Cell>>, lat: string, lon: string, parse: string -> Option<real>)
    requires forall i :: 0 <= i < |a| ==> |a[i]| == |t.columns|
    requires forall i :: 0 <= i < |b| ==> |b[i]| == |t.columns|
    ensures forall i :: 0 <= i < |a + b| ==> |(a + b)[i]| == |t.columns|
    ensures Converted(t, a + b, lat, lon, parse) == Converted(t, a, lat, lon, parse) + Converted(t, b, lat, lon, parse)
    decreases |b|
  {
    if b != [] {
      var b' := b[..|b| - 1];
      assert (a + b)[..|a + b| - 1] == a + b';
      assert (a + b)[|a + b| - 1] == b[|b| - 1];
      ConvertedAppend(t, a, b', lat, lon, parse);
    } else {
      assert a + b == a;
    }
  }

  /** One row on its own yields its feature, or nothing when it is skipped. */
  lemma ConvertedSingle(t: Table, row: seq<Cell>, lat: string, lon: string, parse: string -> Option<real>)
    requires |row| == |t.columns|
    ensures Converted(t, [row], lat, lon, parse) ==
      match RowFeature(t, row, lat, lon, parse) case Some(f) => [f] case None => []
  {
    assert [row][..0] == [];
  }

  /** Never more features than rows. */
  lemma {:induction false} ConvertedBound(t: Table, rows: seq<seq<Cell>>, lat: string, lon: string, parse: string -> Option<real>)
    requires forall i :: 0 <= i < |rows| ==> |rows[i]| == |t.columns|
    ensures |Converted(t, rows, lat, lon, parse)| <= |rows|
  {
    if rows != [] {
      ConvertedBound(t, rows[..|rows| - 1], lat, lon, parse);
    }
  }

  /** Every feature comes from a kept row, and every kept row's feature is
      in the result. */
  lemma {:induction false} ConvertedMembers(t: Table, rows: seq<seq<Cell>>, lat: string, lon: string, parse: string -> Option<real>, f: Feature)
    requires forall i :: 0 <= i < |rows| ==> |rows[i]| == |t.columns|
    ensures f in Converted(t, rows, lat, lon, parse) <==>
      exists i :: 0 <= i < |rows| && RowFeature(t, rows[i], lat, lon, parse) == Some(f)
  {
    if rows != [] {
      var init := rows[..|rows| - 1];
      ConvertedMembers(t, init, lat, lon, parse, f);
      assert forall i :: 0 <= i < |init| ==> init[i] == rows[i];
      if exists i :: 0 <= i < |rows| && RowFeature(t, rows[i], lat, lon, parse) == Some(f) {
        var i :| 0 <= i < |rows| && RowFeature(t, rows[i], lat, lon, parse) == Some(f);
        if i < |init| {
          assert RowFeature(t, init[i], lat, lon, parse) == Some(f);
        }
      }
    }
  }
}
