/** The frames `load_data_to_snowflake` (load.py) writes: three projections of the cleaned
    file, the date dimension as read back, and the fact table built by an inner merge,
    a row number and a reorder. */
module Facts {
  import opened Wrappers
  import opened Frames
  import opened Payroll
  import opened DimDate
  import opened Schema

  /** The exceptions the load can raise. `EmptyData` is what `pd.read_csv` raises for a
      file without a header; `DatabaseError` is any failure of a statement the warehouse
      executes, numbered by its position in the connection's history. */
  datatype LoadError = EmptyData | Missing(column: Column) | DatabaseError(statement: nat)

  /** `pd.read_csv` of a file written from `f`: a frame without columns was written as an
      empty file, which cannot be read back. */
  function ReadCsv(f: Frame): (r: Result<Frame, LoadError>)
    ensures r.Ok? <==> |f.columns| > 0
    ensures r.Ok? ==> r.value == f
    ensures r.Err? ==> r.error == EmptyData
  {
    if |f.columns| == 0 then Err(EmptyData) else Ok(f)
  }

  const EmployeeColumns: seq<Column> := [
    EmployeeID, LastName, FirstName, AgencyStartDate, TitleCode, TitleDescription,
    WorkLocationBorough, LeaveStatusasofJune30]
  const AgencyColumns: seq<Column> := [AgencyID, AgencyName]
  const PayBasisColumns: seq<Column> := [PayBasisID, PayBasis]
  const DateColumns: seq<Column> := [DateID, Date, Year, Month, Day, Quarter]

  /** The twelve columns taken from the merge. */
  const FactSelection: seq<Column> := [
    EmployeeID, AgencyID, DateID, PayBasisID, FiscalYear, PayrollNumber, BaseSalary,
    RegularHours, OTHours, RegularGrossPaid, TotalOTPaid, TotalOtherPay]

  /** The final layout, `FactID` first. */
  const FactLayout: seq<Column> := [FactID] + FactSelection

  /** `df[cols]`, raising `KeyError` for a missing column. */
  function Project(f: Frame, cols: seq<Column>): (r: Result<Frame, LoadError>)
    ensures r.Ok? <==> forall c :: c in cols ==> c in f.columns
    ensures r.Ok? ==> r.value.columns == cols && |r.value.rows| == |f.rows|
    ensures r.Ok? ==> forall i :: 0 <= i < |f.rows| ==>
      r.value.rows[i].Keys == (set c | c in cols) &&
      forall c :: c in cols ==> r.value.rows[i][c] == At(f.rows[i], c)
  {
    match Select(f, cols)
    case Err(e) => Err(Missing(e.column))
    case Ok(g) => Ok(g)
  }

  /** The fact table: merge the cleaned rows with `dim_date` on `FiscalYear = Year`, then
      number and reorder. It raises `KeyError` exactly when a join key or one of the twelve
      fact columns is missing from both frames; otherwise it has the fact layout and one
      row per matching pair. */
  function FactPayroll(cleaned: Frame, dimDate: Frame): (r: Result<Frame, LoadError>)
    ensures r.Ok? <==>
      && FiscalYear in cleaned.columns && Year in dimDate.columns
      && forall c :: c in FactSelection ==> c in cleaned.columns || c in dimDate.columns
    ensures r.Err? ==> r.error.Missing?
    ensures r.Ok? ==>
      r.value.columns == FactLayout && |r.value.rows| == |MergeRows(cleaned.rows, FiscalYear, dimDate.rows, Year)|
  {
    match Merge(cleaned, FiscalYear, dimDate, Year)
    case Err(e) => Err(Missing(e.column))
    case Ok(merged) =>
      assert merged.columns == cleaned.columns + dimDate.columns;
      FactFromMerged(merged)
  }

  /** Keep the twelve fact columns of the merge, number the rows from 1 as `FactID`, and
      move `FactID` first: the fact rows are the merged rows, in order, each carrying its
      position as its ID. */
  function FactFromMerged(merged: Frame): (r: Result<Frame, LoadError>)
    ensures r.Ok? <==> forall c :: c in FactSelection ==> c in merged.columns
    ensures r.Ok? ==> r.value.columns == FactLayout && |r.value.rows| == |merged.rows|
    ensures r.Ok? ==> forall i :: 0 <= i < |merged.rows| ==>
      r.value.rows[i].Keys == (set c | c in FactLayout) &&
      r.value.rows[i][FactID] == IntV(i + 1) && KeepsFactCells(r.value.rows[i], merged.rows[i])
  {
    match Project(merged, FactSelection)
    case Err(e) => Err(e)
    case Ok(selected) =>
      NumberedFacts(merged, selected);
      Project(WithRowNumbers(selected, FactID), FactLayout)
  }

  /** Numbering the selected rows and moving `FactID` first keeps, row by row, the twelve
      cells taken from the merge. */
  lemma NumberedFacts(merged: Frame, selected: Frame)
    requires selected.columns == FactSelection && |selected.rows| == |merged.rows|
    requires forall i, c :: 0 <= i < |merged.rows| && c in FactSelection ==>
      c in selected.rows[i] && selected.rows[i][c] == At(merged.rows[i], c)
    ensures var fact := Project(WithRowNumbers(selected, FactID), FactLayout);
      && fact.Ok? && fact.value.columns == FactLayout && |fact.value.rows| == |merged.rows|
      && forall i :: 0 <= i < |merged.rows| ==>
           fact.value.rows[i].Keys == (set c | c in FactLayout) &&
           fact.value.rows[i][FactID] == IntV(i + 1) && KeepsFactCells(fact.value.rows[i], merged.rows[i])
  {
    FactIDNotSelected();
    NumberedProjection(merged, selected, FactSelection, FactID);
  }

  lemma FactIDNotSelected()
    ensures FactID !in FactSelection
  {
  }

  /** Numbering the rows of `selected` in a fresh column `id` and projecting onto `id`
      followed by `cols` keeps every cell of `cols`. */
  lemma NumberedProjection(merged: Frame, selected: Frame, cols: seq<Column>, id: Column)
    requires id !in cols
    requires selected.columns == cols && |selected.rows| == |merged.rows|
    requires forall i, c :: 0 <= i < |merged.rows| && c in cols ==>
      c in selected.rows[i] && selected.rows[i][c] == At(merged.rows[i], c)
    ensures var fact := Project(WithRowNumbers(selected, id), [id] + cols);
      && fact.Ok? && fact.value.columns == [id] + cols && |fact.value.rows| == |merged.rows|
      && forall i :: 0 <= i < |merged.rows| ==>
           && fact.value.rows[i].Keys == (set c | c in [id] + cols)
           && fact.value.rows[i][id] == IntV(i + 1)
           && forall c :: c in cols ==> c in fact.value.rows[i] && fact.value.rows[i][c] == At(merged.rows[i], c)
  {
    var numbered := WithRowNumbers(selected, id);
    assert forall c :: c in [id] + cols ==> c in numbered.columns;
    var fact := Project(numbered, [id] + cols).value;
    forall i, c | 0 <= i < |merged.rows| && c in cols
      ensures c in fact.rows[i] && fact.rows[i][c] == At(merged.rows[i], c)
    {
      assert fact.rows[i][c] == At(numbered.rows[i], c);
    }
  }

  /** `fact` holds, in each of the twelve fact columns, the cell of the merged row `x`. */
  ghost predicate KeepsFactCells(fact: Row, x: Row) {
    forall c :: c in FactSelection ==> c in fact && fact[c] == At(x, c)
  }

  /** `FactID` is exactly 1..N in row order and comes first; every fact row is a cleaned row
      joined to a date-dimension row with the same year, so a cleaned row without such a
      partner contributes nothing. */
  lemma FactRows(cleaned: Frame, dimDate: Frame)
    requires FactPayroll(cleaned, dimDate).Ok?
    ensures var fact := FactPayroll(cleaned, dimDate).value;
      && fact.columns == FactLayout && fact.columns[0] == FactID
      && |fact.rows| == |MergeRows(cleaned.rows, FiscalYear, dimDate.rows, Year)|
      && (forall i :: 0 <= i < |fact.rows| ==> FactID in fact.rows[i] && fact.rows[i][FactID] == IntV(i + 1))
      && (forall i :: 0 <= i < |fact.rows| ==> JoinedFrom(fact.rows[i], cleaned.rows, dimDate.rows))
  {
    var merged := Merge(cleaned, FiscalYear, dimDate, Year).value;
    var fact := FactPayroll(cleaned, dimDate).value;
    assert fact == FactFromMerged(merged).value;
    forall i | 0 <= i < |fact.rows| ensures JoinedFrom(fact.rows[i], cleaned.rows, dimDate.rows) {
      var x := merged.rows[i];
      MergeRowsMembership(cleaned.rows, FiscalYear, dimDate.rows, Year, x);
      var a, b :| 0 <= a < |cleaned.rows| && 0 <= b < |dimDate.rows| &&
        At(cleaned.rows[a], FiscalYear) == At(dimDate.rows[b], Year) && x == cleaned.rows[a] + dimDate.rows[b];
      assert KeepsFactCells(fact.rows[i], cleaned.rows[a] + dimDate.rows[b]);
    }
  }

  /** `fact` comes from some cleaned row and some date row with an equal year. */
  ghost predicate JoinedFrom(fact: Row, ls: seq<Row>, ds: seq<Row>) {
    exists a, b :: 0 <= a < |ls| && 0 <= b < |ds| &&
      At(ls[a], FiscalYear) == At(ds[b], Year) && KeepsFactCells(fact, ls[a] + ds[b])
  }

  /** When the date dimension has one row per year and every cleaned year occurs in it, each
      cleaned row yields exactly one fact row, in the same position, carrying the cells of
      the date row for its year. */
  lemma FactRowsOnePerCleanedRow(cleaned: Frame, dimDate: Frame)
    requires FactPayroll(cleaned, dimDate).Ok?
    requires forall a, b :: 0 <= a < b < |dimDate.rows| ==> At(dimDate.rows[a], Year) != At(dimDate.rows[b], Year)
    requires forall i :: 0 <= i < |cleaned.rows| ==> HasPartner(cleaned.rows[i], FiscalYear, dimDate.rows, Year)
    ensures var fact := FactPayroll(cleaned, dimDate).value;
      && |fact.rows| == |cleaned.rows|
      && forall i :: 0 <= i < |cleaned.rows| ==> JoinedAt(fact.rows[i], cleaned.rows[i], dimDate.rows)
  {
    var merged := Merge(cleaned, FiscalYear, dimDate, Year).value;
    var fact := FactPayroll(cleaned, dimDate).value;
    assert fact == FactFromMerged(merged).value;
    MergeRowsOneToOne(cleaned.rows, FiscalYear, dimDate.rows, Year);
    forall i | 0 <= i < |cleaned.rows| ensures JoinedAt(fact.rows[i], cleaned.rows[i], dimDate.rows) {
      assert JoinedTo(merged.rows[i], cleaned.rows[i], FiscalYear, dimDate.rows, Year);
      var b :| 0 <= b < |dimDate.rows| && At(cleaned.rows[i], FiscalYear) == At(dimDate.rows[b], Year) &&
        merged.rows[i] == cleaned.rows[i] + dimDate.rows[b];
      assert KeepsFactCells(fact.rows[i], merged.rows[i]);
    }
  }

  /** `fact` is the cleaned row `l` joined to a date row with `l`'s year. */
  ghost predicate JoinedAt(fact: Row, l: Row, ds: seq<Row>) {
    exists b :: 0 <= b < |ds| && At(l, FiscalYear) == At(ds[b], Year) && KeepsFactCells(fact, l + ds[b])
  }

  /** The declared schema of each table lists exactly the columns of the frame written to it. */
  lemma SchemaMatchesFrames()
    ensures ColumnsOf(Tables[0]) == EmployeeColumns
    ensures ColumnsOf(Tables[1]) == AgencyColumns
    ensures ColumnsOf(Tables[2]) == PayBasisColumns
    ensures ColumnsOf(Tables[3]) == DateColumns
    ensures ColumnsOf(Tables[4]) == FactLayout
  {
    ColumnsMatch(Tables[0], EmployeeColumns);
    ColumnsMatch(Tables[1], AgencyColumns);
    ColumnsMatch(Tables[2], PayBasisColumns);
    ColumnsMatch(Tables[3], DateColumns);
    ColumnsMatch(Tables[4], FactLayout);
  }

  lemma ColumnsMatch(t: TableDef, cols: seq<Column>)
    requires |t.columns| == |cols| && forall i :: 0 <= i < |cols| ==> t.columns[i].column == cols[i]
    ensures ColumnsOf(t) == cols
  {
  }

  /** `Dim_Employee`, `Dim_Agency` and `Dim_PayBasis` are projections of the cleaned file:
      one row per cleaned record, same order, no deduplication. */
  lemma DimensionsAreProjections(rs: seq<Record>)
    ensures forall cols :: cols in [EmployeeColumns, AgencyColumns, PayBasisColumns] ==>
      var p := Project(CleanedFrame(rs), cols);
      p.Ok? && p.value.columns == cols && |p.value.rows| == |rs| &&
      forall i, c :: 0 <= i < |rs| && c in cols ==> p.value.rows[i][c] == Cell(rs[i], c)
  {
    forall c | IsCleanedColumn(c) ensures c in CleanedColumns {
      CleanedColumnsExactly(c);
    }
  }
}
