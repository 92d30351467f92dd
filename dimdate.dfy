/** The date dimension of transform.py: one row per fiscal year, keyed by `year * 10000`. */
module DimDate {
  import opened Wrappers
  import opened Frames
  import opened Decimal

  /** One row of `dim_date`. */
  datatype DateRow = DateRow(dateID: int, date: Timestamp, year: int, month: int, day: int, quarter: int)

  /** The exception that ends `transform_data`: `pd.Timestamp` cannot represent January 1
      of the given year. */
  datatype TransformError = OutOfBoundsDatetime(year: int)

  /** The years whose January 1 a `pd.Timestamp` of nanosecond resolution can hold (its
      range runs from late 1677 to early 2262). This is the only resolution pandas offers
      before version 2.0; later versions parse some out-of-range dates at a coarser one. */
  const MinYear: int := 1678
  const MaxYear: int := 2262

  /** `int(f"{year}0000")`: the decimal text of the year with four zeros appended, read back. */
  function DateKey(year: int): (id: int)
    ensures id == year * 10000
  {
    ParseShowFourZeros(year);
    Parse(Show(year) + "0000").value
  }

  /** `pd.Timestamp(f"{year}-01-01")` for a four-digit year; `None` when the year is out
      of the nanosecond range. */
  function NewYearsDay(year: int): (t: Option<Timestamp>)
    ensures t.Some? <==> MinYear <= year <= MaxYear
    ensures t.Some? ==> t.value == Timestamp(year, 1, 1)
  {
    if MinYear <= year <= MaxYear then Some(Timestamp(year, 1, 1)) else None
  }

  /** The dictionary appended for one year; the key is computed before the timestamp. */
  function DateRowOf(year: int): (r: Result<DateRow, TransformError>)
    ensures r.Ok? <==> MinYear <= year <= MaxYear
    ensures r.Err? ==> r.error == OutOfBoundsDatetime(year)
  {
    var id := DateKey(year);
    match NewYearsDay(year)
    case None => Err(OutOfBoundsDatetime(year))
    case Some(t) => Ok(DateRow(id, t, year, 1, 1, 1))
  }

  /** The row `generate_Dim_Date_Table` builds for an in-range year. */
  predicate IsDateRowFor(r: DateRow, year: int) {
    r.dateID == year * 10000 && r.date == Timestamp(year, 1, 1) && r.year == year &&
    r.month == 1 && r.day == 1 && r.quarter == 1
  }

  predicate InRange(year: int) {
    MinYear <= year <= MaxYear
  }

  /** `years[k]` is the first year out of range. */
  predicate FirstOutOfRange(years: seq<int>, k: nat)
    requires k < |years|
  {
    !InRange(years[k]) && forall j :: 0 <= j < k ==> InRange(years[j])
  }

  /** The rows of `generate_Dim_Date_Table(years)`, or the exception of the first year
      that cannot be turned into a timestamp. */
  function DimDateTable(years: seq<int>): (r: Result<seq<DateRow>, TransformError>)
    ensures r.Ok? <==> forall k :: 0 <= k < |years| ==> InRange(years[k])
    ensures r.Ok? ==> |r.value| == |years| && forall k :: 0 <= k < |years| ==> IsDateRowFor(r.value[k], years[k])
    ensures r.Err? ==> exists k :: 0 <= k < |years| && FirstOutOfRange(years, k) && r.error == OutOfBoundsDatetime(years[k])
  {
    if |years| == 0 then Ok([])
    else
      var n := |years| - 1;
      var prefix := DimDateTable(years[..n]);
      assert forall k :: 0 <= k < n ==> years[..n][k] == years[k];
      if prefix.Err? then prefix
      else match DateRowOf(years[n])
        case Err(e) => Err(e)
        case Ok(row) => Ok(prefix.value + [row])
  }

  /** `generate_Dim_Date_Table`: the loop that appends one row per year, in order. An
      out-of-range year raises in the middle of the loop and nothing is returned. */
  method GenerateDimDate(years: seq<int>) returns (r: Result<seq<DateRow>, TransformError>)
    ensures r == DimDateTable(years)
  {
    var dateData: seq<DateRow> := [];
    for i := 0 to |years|
      invariant DimDateTable(years[..i]) == Ok(dateData)
    {
      assert years[..i + 1][..i] == years[..i];
      var dateID := DateKey(years[i]);
      var date := NewYearsDay(years[i]);
      if date.None? {
        r := Err(OutOfBoundsDatetime(years[i]));
        assert DimDateTable(years[..i + 1]) == r;
        FailureIsFinal(years, i + 1);
        return;
      }
      dateData := dateData + [DateRow(dateID, date.value, years[i], 1, 1, 1)];
    }
    assert years[..|years|] == years;
    r := Ok(dateData);
  }

  /** Once a prefix of the years fails, the whole list fails with the same exception. */
  lemma {:induction false} FailureIsFinal(years: seq<int>, i: nat)
    requires i <= |years| && DimDateTable(years[..i]).Err?
    ensures DimDateTable(years) == DimDateTable(years[..i])
  {
    if i == |years| {
      assert years[..i] == years;
    } else {
      var front := years[..|years| - 1];
      assert front[..i] == years[..i];
      FailureIsFinal(front, i);
      FailureStays(years);
    }
  }

  /** A failure of all but the last year is the failure of the whole list. */
  lemma FailureStays(years: seq<int>)
    requires |years| > 0 && DimDateTable(years[..|years| - 1]).Err?
    ensures DimDateTable(years) == DimDateTable(years[..|years| - 1])
  {
  }

  /** With distinct years the table has one row per year: the key picks out its row. */
  lemma DateKeysDistinct(years: seq<int>)
    requires forall a, b :: 0 <= a < b < |years| ==> years[a] != years[b]
    requires DimDateTable(years).Ok?
    ensures var rows := DimDateTable(years).value;
      forall a, b :: 0 <= a < b < |rows| ==> rows[a].dateID != rows[b].dateID && rows[a].year != rows[b].year
  {
  }

  /** `pd.DataFrame(date_data)`: the dictionary keys become the columns; an empty list
      gives a frame without columns. */
  function DateFrame(rows: seq<DateRow>): (f: Frame)
    ensures |f.rows| == |rows|
    ensures |rows| == 0 <==> f.columns == []
    ensures |rows| > 0 ==> f.columns == [DateID, Date, Year, Month, Day, Quarter]
    ensures forall k :: 0 <= k < |rows| ==>
      f.rows[k].Keys == {DateID, Date, Year, Month, Day, Quarter} &&
      f.rows[k][DateID] == IntV(rows[k].dateID) && f.rows[k][Date] == TimeV(rows[k].date) &&
      f.rows[k][Year] == IntV(rows[k].year) && f.rows[k][Month] == IntV(rows[k].month) &&
      f.rows[k][Day] == IntV(rows[k].day) && f.rows[k][Quarter] == IntV(rows[k].quarter)
  {
    Frame(if |rows| == 0 then [] else [DateID, Date, Year, Month, Day, Quarter],
          seq(|rows|, k requires 0 <= k < |rows| => DateRowCells(rows[k])))
  }

  function DateRowCells(r: DateRow): Row {
    map[DateID := IntV(r.dateID), Date := TimeV(r.date), Year := IntV(r.year),
        Month := IntV(r.month), Day := IntV(r.day), Quarter := IntV(r.quarter)]
  }

  /** Reads one `dim_date` row back out of its cells; `None` unless all six are present
      with the expected kinds. */
  function DecodeDateRow(cells: Row): Option<DateRow> {
    if && DateID in cells && Date in cells && Year in cells
       && Month in cells && Day in cells && Quarter in cells
       && cells[DateID].IntV? && cells[Date].TimeV? && cells[Year].IntV?
       && cells[Month].IntV? && cells[Day].IntV? && cells[Quarter].IntV?
    then Some(DateRow(cells[DateID].i, cells[Date].t, cells[Year].i,
                      cells[Month].i, cells[Day].i, cells[Quarter].i))
    else None
  }

  /** Building the frame loses nothing: each of its rows reads back as the dictionary it
      was built from, and the frame has one row per dictionary. */
  lemma DateFrameRoundTrip(rows: seq<DateRow>)
    ensures |DateFrame(rows).rows| == |rows|
    ensures forall k :: 0 <= k < |rows| ==> DecodeDateRow(DateFrame(rows).rows[k]) == Some(rows[k])
  {
  }
}
