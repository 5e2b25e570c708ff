/**
 The reshape pipeline of the COVID-19 hospitalization notebook: keep one
 country's long records, pivot them into a table keyed by date with one
 column per indicator, make the column names safe for Delta tables, and copy
 the date index into a column of its own.
 */
module CovidEda {
  import opened Wrappers
  import opened StringOrder

  /** One row of the long-format hospitalization CSV: one indicator observed
      for one country on one date. `value` is the parsed number, `None` where
      the cell is empty. */
  datatype LongRecord = LongRecord(isoCode: string, date: string, indicator: string, value: Option<int>)

  /** A cell of the wide table: a number, pandas' missing marker, or a label
      (the date strings copied out of the index). */
  datatype Cell = Num(n: int) | NaN | Text(s: string)

  /** A wide table: its row keys (the index), its column names and its
      cells, row by row. */
  datatype Table = Table(index: seq<string>, columns: seq<string>, values: seq<seq<Cell>>)

  /** One row of cells per index key, one cell per column in every row. */
  predicate WellFormed(t: Table) {
    |t.values| == |t.index| && forall r :: 0 <= r < |t.values| ==> |t.values[r]| == |t.columns|
  }

  /** The country `filter_country` keeps when none is given. */
  const DefaultCountry: string := "USA"
  /** The literals of the notebook's one call of each transform. */
  const PipelineCountry: string := "DZA"
  const PipelineFill: int := 0
  const DateColumn: string := "date"

  // ---------------------------------------------------------------------
  // filter_country

  /** The records whose country code is `country`, in their original order. */
  function FilterCountry(rows: seq<LongRecord>, country: string): (r: seq<LongRecord>)
    ensures |r| <= |rows|
    ensures forall k :: 0 <= k < |r| ==> r[k].isoCode == country
    ensures forall x :: x in r <==> x in rows && x.isoCode == country
  {
    if rows == [] then []
    else if rows[0].isoCode == country then [rows[0]] + FilterCountry(rows[1..], country)
    else FilterCountry(rows[1..], country)
  }

  /** `filter_country` called without a country keeps the United States. */
  function FilterCountryDefault(rows: seq<LongRecord>): (r: seq<LongRecord>)
    ensures forall k :: 0 <= k < |r| ==> r[k].isoCode == "USA"
    ensures forall x :: x in r <==> x in rows && x.isoCode == "USA"
  {
    FilterCountry(rows, DefaultCountry)
  }

  function Shift(ix: seq<nat>): seq<nat> {
    seq(|ix|, k requires 0 <= k < |ix| => ix[k] + 1)
  }

  /** The positions at which the boolean mask `iso_code == country` is true,
      in increasing order. */
  function MatchIndices(rows: seq<LongRecord>, country: string): seq<nat> {
    if rows == [] then []
    else if rows[0].isoCode == country then [0] + Shift(MatchIndices(rows[1..], country))
    else Shift(MatchIndices(rows[1..], country))
  }

  /** `r` is `rows` read at the positions `ix`, which increase and are
      exactly the positions of the rows of country `country`. */
  ghost predicate Selects(ix: seq<nat>, r: seq<LongRecord>, rows: seq<LongRecord>, country: string) {
    && |ix| == |r|
    && (forall k :: 0 <= k < |ix| ==> ix[k] < |rows| && r[k] == rows[ix[k]])
    && (forall k, l :: 0 <= k < l < |ix| ==> ix[k] < ix[l])
    && (forall i :: 0 <= i < |rows| ==> (i in ix <==> rows[i].isoCode == country))
  }

  /** The filter's result is the input read at exactly the positions where
      the mask holds, in increasing order: an order-preserving subsequence
      that holds every matching row. */
  lemma {:induction false} FilterIsMaskSelection(rows: seq<LongRecord>, country: string)
    ensures Selects(MatchIndices(rows, country), FilterCountry(rows, country), rows, country)
  {
    if rows != [] {
      FilterIsMaskSelection(rows[1..], country);
      SelectsStep(MatchIndices(rows[1..], country), FilterCountry(rows[1..], country), rows, country);
    }
  }

  lemma SelectsStep(tail: seq<nat>, rest: seq<LongRecord>, rows: seq<LongRecord>, country: string)
    requires rows != [] && Selects(tail, rest, rows[1..], country)
    ensures rows[0].isoCode == country ==> Selects([0] + Shift(tail), [rows[0]] + rest, rows, country)
    ensures rows[0].isoCode != country ==> Selects(Shift(tail), rest, rows, country)
  {
    var shifted := Shift(tail);
    ShiftedPositions(tail, rest, rows, country);
    if rows[0].isoCode == country {
      MatchHead(rows[0], shifted, rest, rows);
      forall i | 0 <= i < |rows|
        ensures i in [0] + shifted <==> rows[i].isoCode == country
      {
        assert i in [0] + shifted <==> i == 0 || i in shifted;
      }
    }
  }

  lemma ShiftedPositions(tail: seq<nat>, rest: seq<LongRecord>, rows: seq<LongRecord>, country: string)
    requires rows != [] && Selects(tail, rest, rows[1..], country)
    ensures |Shift(tail)| == |rest|
    ensures forall k :: 0 <= k < |Shift(tail)| ==> 0 < Shift(tail)[k] < |rows| && rest[k] == rows[Shift(tail)[k]]
    ensures forall k, l :: 0 <= k < l < |Shift(tail)| ==> Shift(tail)[k] < Shift(tail)[l]
    ensures 0 !in Shift(tail)
    ensures forall i :: 1 <= i < |rows| ==> (i in Shift(tail) <==> rows[i].isoCode == country)
  {
  }

  lemma MatchHead(x: LongRecord, shifted: seq<nat>, rest: seq<LongRecord>, rows: seq<LongRecord>)
    requires rows != [] && rows[0] == x && |shifted| == |rest|
    requires forall k :: 0 <= k < |shifted| ==> 0 < shifted[k] < |rows| && rest[k] == rows[shifted[k]]
    requires forall k, l :: 0 <= k < l < |shifted| ==> shifted[k] < shifted[l]
    ensures forall k :: 0 <= k < |[0] + shifted| ==>
      ([0] + shifted)[k] < |rows| && ([x] + rest)[k] == rows[([0] + shifted)[k]]
    ensures forall k, l :: 0 <= k < l < |[0] + shifted| ==> ([0] + shifted)[k] < ([0] + shifted)[l]
  {
  }

  /** A country code that never occurs gives an empty result, not an error. */
  lemma {:induction false} FilterAbsentCountry(rows: seq<LongRecord>, country: string)
    requires forall i :: 0 <= i < |rows| ==> rows[i].isoCode != country
    ensures FilterCountry(rows, country) == []
  {
    if rows != [] {
      FilterAbsentCountry(rows[1..], country);
    }
  }

  // ---------------------------------------------------------------------
  // pivot_and_clean

  /** `fillna` on one record: a missing value becomes `fill`. */
  function FillRecord(x: LongRecord, fill: int): LongRecord {
    x.(value := Some(x.value.GetOr(fill)))
  }

  /** `fillna(fill)` over the long records. */
  function FillMissing(rows: seq<LongRecord>, fill: int): (r: seq<LongRecord>)
    ensures |r| == |rows|
    ensures forall i :: 0 <= i < |r| ==> r[i].value.Some?
    ensures forall i :: 0 <= i < |r| ==>
      r[i].isoCode == rows[i].isoCode && r[i].date == rows[i].date && r[i].indicator == rows[i].indicator
    ensures forall i :: 0 <= i < |r| ==>
      r[i].value == (if rows[i].value.Some? then rows[i].value else Some(fill))
  {
    if rows == [] then [] else [FillRecord(rows[0], fill)] + FillMissing(rows[1..], fill)
  }

  /** No two records share both date and indicator. */
  predicate UniquePairs(rows: seq<LongRecord>) {
    forall i, j :: 0 <= i < j < |rows| && rows[i].date == rows[j].date ==> rows[i].indicator != rows[j].indicator
  }

  /** Some record carries the pair (`date`, `indicator`). */
  predicate HasPair(rows: seq<LongRecord>, date: string, indicator: string) {
    exists i :: 0 <= i < |rows| && rows[i].date == date && rows[i].indicator == indicator
  }

  function Dates(rows: seq<LongRecord>): seq<string> {
    seq(|rows|, i requires 0 <= i < |rows| => rows[i].date)
  }

  function Indicators(rows: seq<LongRecord>): seq<string> {
    seq(|rows|, i requires 0 <= i < |rows| => rows[i].indicator)
  }

  function CellOf(v: Option<int>): Cell {
    match v
    case Some(n) => Num(n)
    case None => NaN
  }

  /** The cell `pivot_table` puts at (`date`, `indicator`): the value of the
      record with that pair, missing when there is none. */
  function Lookup(rows: seq<LongRecord>, date: string, indicator: string): Cell {
    if rows == [] then NaN
    else if rows[0].date == date && rows[0].indicator == indicator then CellOf(rows[0].value)
    else Lookup(rows[1..], date, indicator)
  }

  lemma {:induction false} LookupFound(rows: seq<LongRecord>, i: int)
    requires UniquePairs(rows) && 0 <= i < |rows|
    ensures Lookup(rows, rows[i].date, rows[i].indicator) == CellOf(rows[i].value)
  {
    if i > 0 {
      assert rows[1..][i - 1] == rows[i];
      LookupFound(rows[1..], i - 1);
    }
  }

  lemma {:induction false} LookupAbsent(rows: seq<LongRecord>, date: string, indicator: string)
    requires !HasPair(rows, date, indicator)
    ensures Lookup(rows, date, indicator) == NaN
  {
    if rows != [] {
      assert rows[0].date != date || rows[0].indicator != indicator;
      assert !HasPair(rows[1..], date, indicator) by {
        forall i | 0 <= i < |rows| - 1
          ensures rows[1..][i].date != date || rows[1..][i].indicator != indicator
        {
          assert rows[1..][i] == rows[i + 1];
        }
      }
      LookupAbsent(rows[1..], date, indicator);
    }
  }

  /** `fillna(fill).pivot_table(values="value", columns="indicator", index="date")`:
      one row per distinct date and one column per distinct indicator, both in
      ascending order, each cell the value of the record with that pair. */
  function Pivot(rows: seq<LongRecord>, fill: int): (t: Table)
    requires UniquePairs(rows)
    ensures WellFormed(t)
    ensures StrictlySorted(t.index) && StrictlySorted(t.columns)
    ensures forall d :: d in t.index <==> exists i :: 0 <= i < |rows| && rows[i].date == d
    ensures forall k :: k in t.columns <==> exists i :: 0 <= i < |rows| && rows[i].indicator == k
  {
    var filled := FillMissing(rows, fill);
    var index := SortedDistinct(Dates(filled));
    var columns := SortedDistinct(Indicators(filled));
    FilledKeys(rows, fill);
    Table(index, columns,
      seq(|index|, r requires 0 <= r < |index| =>
        seq(|columns|, c requires 0 <= c < |columns| => Lookup(filled, index[r], columns[c]))))
  }

  /** Filling keeps the dates and indicators the pivot groups by. */
  lemma FilledKeys(rows: seq<LongRecord>, fill: int)
    ensures forall d :: d in Dates(FillMissing(rows, fill)) <==> exists i :: 0 <= i < |rows| && rows[i].date == d
    ensures forall k :: k in Indicators(FillMissing(rows, fill)) <==> exists i :: 0 <= i < |rows| && rows[i].indicator == k
  {
    var filled := FillMissing(rows, fill);
    forall d ensures d in Dates(filled) <==> exists i :: 0 <= i < |rows| && rows[i].date == d {
      if d in Dates(filled) {
        var i :| 0 <= i < |filled| && Dates(filled)[i] == d;
        assert rows[i].date == d;
      }
      if exists i :: 0 <= i < |rows| && rows[i].date == d {
        var i :| 0 <= i < |rows| && rows[i].date == d;
        assert Dates(filled)[i] == d;
      }
    }
    forall k ensures k in Indicators(filled) <==> exists i :: 0 <= i < |rows| && rows[i].indicator == k {
      if k in Indicators(filled) {
        var i :| 0 <= i < |filled| && Indicators(filled)[i] == k;
        assert rows[i].indicator == k;
      }
      if exists i :: 0 <= i < |rows| && rows[i].indicator == k {
        var i :| 0 <= i < |rows| && rows[i].indicator == k;
        assert Indicators(filled)[i] == k;
      }
    }
  }

  /** Filling keeps every record's date and indicator, so it keeps the pairs unique. */
  lemma FillKeepsPairs(rows: seq<LongRecord>, fill: int)
    requires UniquePairs(rows)
    ensures UniquePairs(FillMissing(rows, fill))
    ensures forall d, k :: HasPair(FillMissing(rows, fill), d, k) <==> HasPair(rows, d, k)
  {
  }

  /** For a pair that occurs once, the cell is that record's filled value. */
  lemma PivotCellValue(rows: seq<LongRecord>, fill: int, i: int, r: int, c: int)
    requires UniquePairs(rows) && 0 <= i < |rows|
    requires 0 <= r < |Pivot(rows, fill).index| && Pivot(rows, fill).index[r] == rows[i].date
    requires 0 <= c < |Pivot(rows, fill).columns| && Pivot(rows, fill).columns[c] == rows[i].indicator
    ensures Pivot(rows, fill).values[r][c] == Num(rows[i].value.GetOr(fill))
  {
    var filled := FillMissing(rows, fill);
    FillKeepsPairs(rows, fill);
    LookupFound(filled, i);
  }

  /** A cell is missing exactly when no record carries its pair. */
  lemma PivotMissingCell(rows: seq<LongRecord>, fill: int, r: int, c: int)
    requires UniquePairs(rows)
    requires 0 <= r < |Pivot(rows, fill).index| && 0 <= c < |Pivot(rows, fill).columns|
    ensures Pivot(rows, fill).values[r][c] == NaN
        <==> !HasPair(rows, Pivot(rows, fill).index[r], Pivot(rows, fill).columns[c])
  {
    var t := Pivot(rows, fill);
    var filled := FillMissing(rows, fill);
    FillKeepsPairs(rows, fill);
    if HasPair(rows, t.index[r], t.columns[c]) {
      var i :| 0 <= i < |rows| && rows[i].date == t.index[r] && rows[i].indicator == t.columns[c];
      PivotCellValue(rows, fill, i, r, c);
    } else {
      LookupAbsent(filled, t.index[r], t.columns[c]);
    }
  }

  /** No date labels two rows and no indicator labels two columns. */
  lemma PivotKeysDistinct(rows: seq<LongRecord>, fill: int)
    requires UniquePairs(rows)
    ensures var t := Pivot(rows, fill);
      forall i, j :: 0 <= i < |t.index| && 0 <= j < |t.index| && i != j ==> t.index[i] != t.index[j]
    ensures var t := Pivot(rows, fill);
      forall i, j :: 0 <= i < |t.columns| && 0 <= j < |t.columns| && i != j ==> t.columns[i] != t.columns[j]
  {
    var t := Pivot(rows, fill);
    forall i, j | 0 <= i < |t.index| && 0 <= j < |t.index| && t.index[i] == t.index[j]
      ensures i == j
    {
      SortedDistinctPositions(t.index, i, j);
    }
    forall i, j | 0 <= i < |t.columns| && 0 <= j < |t.columns| && t.columns[i] == t.columns[j]
      ensures i == j
    {
      SortedDistinctPositions(t.columns, i, j);
    }
  }

  /** Every row and every column of the pivot holds a number, so the
      all-missing rows and columns `pivot_table` drops never arise. */
  lemma PivotNoEmptyRow(rows: seq<LongRecord>, fill: int, r: int)
    requires UniquePairs(rows) && 0 <= r < |Pivot(rows, fill).index|
    ensures exists c :: 0 <= c < |Pivot(rows, fill).columns| && Pivot(rows, fill).values[r][c].Num?
  {
    var t := Pivot(rows, fill);
    assert t.index[r] in t.index;
    var i :| 0 <= i < |rows| && rows[i].date == t.index[r];
    assert rows[i].indicator in t.columns;
    var c :| 0 <= c < |t.columns| && t.columns[c] == rows[i].indicator;
    PivotCellValue(rows, fill, i, r, c);
  }

  lemma PivotNoEmptyColumn(rows: seq<LongRecord>, fill: int, c: int)
    requires UniquePairs(rows) && 0 <= c < |Pivot(rows, fill).columns|
    ensures exists r :: 0 <= r < |Pivot(rows, fill).index| && Pivot(rows, fill).values[r][c].Num?
  {
    var t := Pivot(rows, fill);
    assert t.columns[c] in t.columns;
    var i :| 0 <= i < |rows| && rows[i].indicator == t.columns[c];
    assert rows[i].date in t.index;
    var r :| 0 <= r < |t.index| && t.index[r] == rows[i].date;
    PivotCellValue(rows, fill, i, r, c);
  }

  // ---------------------------------------------------------------------
  // clean_spark_cols

  /** `name.replace(" ", "_")`. */
  function ReplaceSpaces(name: string): (r: string)
    ensures |r| == |name|
    ensures forall i :: 0 <= i < |name| ==> r[i] == (if name[i] == ' ' then '_' else name[i])
  {
    if name == [] then [] else [if name[0] == ' ' then '_' else name[0]] + ReplaceSpaces(name[1..])
  }

  /** A name is left as it is exactly when it has no space. */
  lemma ReplaceSpacesFixed(name: string)
    ensures ReplaceSpaces(name) == name <==> ' ' !in name
  {
  }

  lemma ReplaceSpacesIdempotent(name: string)
    ensures ReplaceSpaces(ReplaceSpaces(name)) == ReplaceSpaces(name)
  {
  }

  /** A column name with a space, `new cases`, becomes `new_cases`; `deaths` stays. */
  lemma ReplaceSpacesExample()
    ensures ReplaceSpaces("new cases") == "new_cases"
    ensures ReplaceSpaces("deaths") == "deaths"
  {
    ReplaceSpacesFixed("deaths");
    assert ReplaceSpaces("new cases")[3] == '_';
  }

  /** `columns.str.replace(" ", "_")` over every column name. */
  function CleanColumns(cols: seq<string>): (r: seq<string>)
    ensures |r| == |cols|
    ensures forall j :: 0 <= j < |cols| ==> r[j] == ReplaceSpaces(cols[j])
    ensures forall j :: 0 <= j < |r| ==> ' ' !in r[j]
  {
    if cols == [] then [] else [ReplaceSpaces(cols[0])] + CleanColumns(cols[1..])
  }

  lemma CleanColumnsIdempotent(cols: seq<string>)
    ensures CleanColumns(CleanColumns(cols)) == CleanColumns(cols)
  {
    forall j | 0 <= j < |cols|
      ensures CleanColumns(CleanColumns(cols))[j] == CleanColumns(cols)[j]
    {
      ReplaceSpacesIdempotent(cols[j]);
    }
  }

  /** The table with its column names cleaned; index and cells untouched. */
  function RenameColumns(t: Table): (u: Table)
    ensures u.index == t.index && u.values == t.values
    ensures |u.columns| == |t.columns|
    ensures forall j :: 0 <= j < |u.columns| ==> u.columns[j] == ReplaceSpaces(t.columns[j])
    ensures forall j :: 0 <= j < |u.columns| ==> ' ' !in u.columns[j]
    ensures WellFormed(t) ==> WellFormed(u)
  {
    t.(columns := CleanColumns(t.columns))
  }

  // ---------------------------------------------------------------------
  // index_to_col

  /** `df[name] = col`: every column called `name` is overwritten with `col`;
      when there is none, a column `name` holding `col` is added at the end. */
  function SetColumn(t: Table, name: string, col: seq<Cell>): (u: Table)
    requires WellFormed(t) && |col| == |t.index|
    ensures WellFormed(u) && u.index == t.index
    ensures name in t.columns ==> u.columns == t.columns
    ensures name !in t.columns ==> u.columns == t.columns + [name]
    ensures forall r, c :: 0 <= r < |u.values| && 0 <= c < |u.columns| && u.columns[c] == name ==>
      u.values[r][c] == col[r]
    ensures forall r, c :: 0 <= r < |t.values| && 0 <= c < |t.columns| && t.columns[c] != name ==>
      u.values[r][c] == t.values[r][c]
  {
    if name in t.columns then
      Table(t.index, t.columns,
        seq(|t.values|, r requires 0 <= r < |t.values| =>
          seq(|t.columns|, c requires 0 <= c < |t.columns| =>
            if t.columns[c] == name then col[r] else t.values[r][c])))
    else
      Table(t.index, t.columns + [name],
        seq(|t.values|, r requires 0 <= r < |t.values| => t.values[r] + [col[r]]))
  }

  function IndexCells(index: seq<string>): seq<Cell> {
    seq(|index|, r requires 0 <= r < |index| => Text(index[r]))
  }

  /** `df[colname] = df.index`: afterwards column `colname` holds, in every
      row, that row's index key; the index and the other columns keep their
      names, order and cells. */
  function WithIndexColumn(t: Table, colname: string): (u: Table)
    requires WellFormed(t)
    ensures WellFormed(u) && u.index == t.index
    ensures u.columns == if colname in t.columns then t.columns else t.columns + [colname]
    ensures forall r, c :: 0 <= r < |u.index| && 0 <= c < |u.columns| && u.columns[c] == colname ==>
      u.values[r][c] == Text(u.index[r])
    ensures forall r, c :: 0 <= r < |t.index| && 0 <= c < |t.columns| && t.columns[c] != colname ==>
      u.values[r][c] == t.values[r][c]
  {
    SetColumn(t, colname, IndexCells(t.index))
  }

  // ---------------------------------------------------------------------
  // The wide frame, updated in place by the last two transforms

  class Frame {
    var index: seq<string>
    var columns: seq<string>
    var values: seq<seq<Cell>>

    function View(): Table
      reads this
    {
      Table(index, columns, values)
    }

    ghost predicate Valid()
      reads this
    {
      WellFormed(View())
    }

    /** `pivot_and_clean(pdf, fillna)`: a new frame holding the pivot.
        (Its in-place `to_numeric` of the value column leaves already
        parsed values as they are.) */
    constructor PivotAndClean(rows: seq<LongRecord>, fill: int)
      requires UniquePairs(rows)
      ensures Valid() && View() == Pivot(rows, fill)
    {
      var t := Pivot(rows, fill);
      index, columns, values := t.index, t.columns, t.values;
    }

    /** `clean_spark_cols(pdf)`: rewrites the column names in place and
        returns the same frame. */
    method CleanSparkCols() returns (same: Frame)
      requires Valid()
      modifies this
      ensures same == this && Valid()
      ensures View() == RenameColumns(old(View()))
      ensures index == old(index) && values == old(values)
      ensures |columns| == |old(columns)| && forall j :: 0 <= j < |columns| ==> ' ' !in columns[j]
    {
      columns := CleanColumns(columns);
      same := this;
    }

    /** `index_to_col(df, colname)`: adds (or overwrites) column `colname`
        with the index keys in place and returns the same frame. */
    method IndexToCol(colname: string) returns (same: Frame)
      requires Valid()
      modifies this
      ensures same == this && Valid()
      ensures View() == WithIndexColumn(old(View()), colname)
      ensures index == old(index)
      ensures forall r, c :: 0 <= r < |index| && 0 <= c < |columns| && columns[c] == colname ==>
        values[r][c] == Text(index[r])
    {
      var t := WithIndexColumn(View(), colname);
      columns, values := t.columns, t.values;
      same := this;
    }
  }

  // ---------------------------------------------------------------------
  // The notebook's composition

  /** What the notebook's four calls leave in `df`. */
  function PipelineResult(raw: seq<LongRecord>): Table
    requires UniquePairs(FilterCountry(raw, PipelineCountry))
  {
    WithIndexColumn(RenameColumns(Pivot(FilterCountry(raw, PipelineCountry), PipelineFill)), DateColumn)
  }

  /** Filter on "DZA", pivot with fill 0, clean the names, add the `date` column. */
  method Pipeline(raw: seq<LongRecord>) returns (df: Frame)
    requires UniquePairs(FilterCountry(raw, PipelineCountry))
    ensures fresh(df) && df.Valid() && df.View() == PipelineResult(raw)
  {
    var rows := FilterCountry(raw, PipelineCountry);
    df := new Frame.PivotAndClean(rows, PipelineFill);
    df := df.CleanSparkCols();
    df := df.IndexToCol(DateColumn);
  }

  /** Some record of country `country` is dated `d`. */
  predicate ObservedDate(raw: seq<LongRecord>, country: string, d: string) {
    exists i :: 0 <= i < |raw| && raw[i].isoCode == country && raw[i].date == d
  }

  lemma FilteredRecordObserved(raw: seq<LongRecord>, country: string, k: int)
    requires 0 <= k < |FilterCountry(raw, country)|
    ensures ObservedDate(raw, country, FilterCountry(raw, country)[k].date)
  {
    var x := FilterCountry(raw, country)[k];
    assert x in FilterCountry(raw, country);
    var i :| 0 <= i < |raw| && raw[i] == x;
  }

  lemma ObservedRecordFiltered(raw: seq<LongRecord>, country: string, i: int)
    requires 0 <= i < |raw| && raw[i].isoCode == country
    ensures exists k :: 0 <= k < |FilterCountry(raw, country)| && FilterCountry(raw, country)[k] == raw[i]
  {
    assert raw[i] in FilterCountry(raw, country);
  }

  /** A date occurs among the filtered records exactly when some record of
      that country carries it. */
  lemma FilteredDates(raw: seq<LongRecord>, country: string, d: string)
    ensures (exists k :: 0 <= k < |FilterCountry(raw, country)| && FilterCountry(raw, country)[k].date == d)
        <==> ObservedDate(raw, country, d)
  {
    var rows := FilterCountry(raw, country);
    if exists k :: 0 <= k < |rows| && rows[k].date == d {
      var k :| 0 <= k < |rows| && rows[k].date == d;
      FilteredRecordObserved(raw, country, k);
    }
    if ObservedDate(raw, country, d) {
      var i :| 0 <= i < |raw| && raw[i].isoCode == country && raw[i].date == d;
      ObservedRecordFiltered(raw, country, i);
    }
  }

  /** The table the notebook stores has one row per date observed for
      Algeria, in ascending order. */
  lemma PipelineIndex(raw: seq<LongRecord>)
    requires UniquePairs(FilterCountry(raw, PipelineCountry))
    ensures StrictlySorted(PipelineResult(raw).index)
    ensures forall d :: d in PipelineResult(raw).index <==> ObservedDate(raw, PipelineCountry, d)
  {
    var p := Pivot(FilterCountry(raw, PipelineCountry), PipelineFill);
    assert PipelineResult(raw).index == p.index;
    forall d ensures d in p.index <==> ObservedDate(raw, PipelineCountry, d) {
      FilteredDates(raw, PipelineCountry, d);
    }
  }

  /** Adding a column whose name has no space to a table whose column names
      have none leaves no name with a space. */
  lemma IndexColumnKeepsNamesClean(t: Table, colname: string)
    requires WellFormed(t) && ' ' !in colname
    requires forall c :: 0 <= c < |t.columns| ==> ' ' !in t.columns[c]
    ensures forall c :: 0 <= c < |WithIndexColumn(t, colname).columns| ==> ' ' !in WithIndexColumn(t, colname).columns[c]
  {
    var u := WithIndexColumn(t, colname);
    forall c | 0 <= c < |u.columns| ensures ' ' !in u.columns[c] {
      if c < |t.columns| {
        assert u.columns[c] == u.columns[..|t.columns|][c];
      }
    }
  }

  /** In that table no column name has a space, and the `date` column holds
      each row's date. */
  lemma PipelineColumns(raw: seq<LongRecord>)
    requires UniquePairs(FilterCountry(raw, PipelineCountry))
    ensures forall c :: 0 <= c < |PipelineResult(raw).columns| ==> ' ' !in PipelineResult(raw).columns[c]
    ensures "date" in PipelineResult(raw).columns
    ensures var t := PipelineResult(raw);
      forall r, c :: 0 <= r < |t.index| && 0 <= c < |t.columns| && t.columns[c] == "date" ==>
        t.values[r][c] == Text(t.index[r])
  {
    var cleaned := RenameColumns(Pivot(FilterCountry(raw, PipelineCountry), PipelineFill));
    assert ' ' !in DateColumn;
    IndexColumnKeepsNamesClean(cleaned, DateColumn);
  }

  /** A country that never occurs leaves a table with no rows and only the
      `date` column. */
  lemma PipelineAbsentCountry(raw: seq<LongRecord>)
    requires forall i :: 0 <= i < |raw| ==> raw[i].isoCode != "DZA"
    ensures UniquePairs(FilterCountry(raw, PipelineCountry))
    ensures PipelineResult(raw) == Table([], ["date"], [])
  {
    FilterAbsentCountry(raw, PipelineCountry);
  }

  // ---------------------------------------------------------------------
  // A worked example of the pipeline. The `Example*` members below are the
  // steps of `PipelineExample`, split so that each one stays small.

  function ExampleRecords(): seq<LongRecord> {
    [LongRecord("DZA", "2021-01-01", "cases", Some(5)), LongRecord("DZA", "2021-01-01", "deaths", None)]
  }

  lemma ExampleKeys()
    ensures SortedDistinct(["2021-01-01", "2021-01-01"]) == ["2021-01-01"]
    ensures SortedDistinct(["cases", "deaths"]) == ["cases", "deaths"]
  {
  }

  lemma ExampleFilled()
    ensures FilterCountry(ExampleRecords(), PipelineCountry) == ExampleRecords()
    ensures UniquePairs(ExampleRecords())
    ensures FillMissing(ExampleRecords(), PipelineFill)
      == [LongRecord("DZA", "2021-01-01", "cases", Some(5)), LongRecord("DZA", "2021-01-01", "deaths", Some(0))]
  {
    var raw := ExampleRecords();
    assert raw[1..] == [raw[1]] && raw[1..][1..] == [];
  }

  lemma ExampleCells(filled: seq<LongRecord>)
    requires filled == [LongRecord("DZA", "2021-01-01", "cases", Some(5)), LongRecord("DZA", "2021-01-01", "deaths", Some(0))]
    ensures Dates(filled) == ["2021-01-01", "2021-01-01"]
    ensures Indicators(filled) == ["cases", "deaths"]
    ensures Lookup(filled, "2021-01-01", "cases") == Num(5)
    ensures Lookup(filled, "2021-01-01", "deaths") == Num(0)
  {
    assert filled[1..] == [filled[1]];
  }

  lemma ExamplePivotKeys()
    ensures UniquePairs(ExampleRecords())
    ensures Pivot(ExampleRecords(), PipelineFill).index == ["2021-01-01"]
    ensures Pivot(ExampleRecords(), PipelineFill).columns == ["cases", "deaths"]
  {
    ExampleFilled();
    ExampleCells(FillMissing(ExampleRecords(), PipelineFill));
    ExampleKeys();
  }

  lemma ExamplePivot()
    requires UniquePairs(ExampleRecords())
    ensures Pivot(ExampleRecords(), PipelineFill) == Table(["2021-01-01"], ["cases", "deaths"], [[Num(5), Num(0)]])
  {
    ExamplePivotKeys();
    PivotCellValue(ExampleRecords(), PipelineFill, 0, 0, 0);
    PivotCellValue(ExampleRecords(), PipelineFill, 1, 0, 1);
    ExampleRow(Pivot(ExampleRecords(), PipelineFill));
  }

  lemma ExampleRow(t: Table)
    requires WellFormed(t) && t.index == ["2021-01-01"] && t.columns == ["cases", "deaths"]
    requires t.values[0][0] == Num(5) && t.values[0][1] == Num(0)
    ensures t == Table(["2021-01-01"], ["cases", "deaths"], [[Num(5), Num(0)]])
  {
    assert t.values[0] == [Num(5), Num(0)];
  }

  lemma ExampleRenamed()
    ensures CleanColumns(["cases", "deaths"]) == ["cases", "deaths"]
  {
    ReplaceSpacesFixed("cases");
    ReplaceSpacesFixed("deaths");
    assert ["cases", "deaths"][1..] == ["deaths"] && ["deaths"][1..] == [];
  }

  lemma ExampleDateColumn(p: Table)
    requires p == Table(["2021-01-01"], ["cases", "deaths"], [[Num(5), Num(0)]])
    ensures SetColumn(p, DateColumn, [Text("2021-01-01")])
      == Table(["2021-01-01"], ["cases", "deaths", "date"], [[Num(5), Num(0), Text("2021-01-01")]])
  {
    var u := SetColumn(p, DateColumn, [Text("2021-01-01")]);
    assert "date" !in p.columns;
    assert u.columns == ["cases", "deaths", "date"];
    assert u.values[0][0] == Num(5) && u.values[0][1] == Num(0) && u.values[0][2] == Text("2021-01-01");
    assert u.values[0] == [Num(5), Num(0), Text("2021-01-01")];
  }

  lemma ExampleFinish(p: Table)
    requires p == Table(["2021-01-01"], ["cases", "deaths"], [[Num(5), Num(0)]])
    ensures WithIndexColumn(RenameColumns(p), DateColumn)
      == Table(["2021-01-01"], ["cases", "deaths", "date"], [[Num(5), Num(0), Text("2021-01-01")]])
  {
    ExampleRenamed();
    assert RenameColumns(p) == p;
    assert IndexCells(p.index) == [Text("2021-01-01")];
    ExampleDateColumn(p);
  }

  /** Two Algerian records for one date, the second without a value, give a
      single row: 5 cases, 0 deaths, and the date. */
  lemma PipelineExample()
    ensures UniquePairs(FilterCountry(ExampleRecords(), PipelineCountry))
    ensures PipelineResult(ExampleRecords())
      == Table(["2021-01-01"], ["cases", "deaths", "date"], [[Num(5), Num(0), Text("2021-01-01")]])
  {
    ExampleFilled();
    ExamplePivot();
    ExampleFinish(Pivot(ExampleRecords(), PipelineFill));
  }
}
