/** The payroll record of the cleaning stage and its view as a row of named cells. */
module Payroll {
  import opened Wrappers
  import opened Frames

  /** One payroll row with the columns and types declared for the raw file; `None` is a
      missing cell. `D` is the type of `AgencyStartDate`: text as read, a timestamp once
      coerced. `AgencyID` holds the agency code column under either of its two names. */
  datatype Payroll<D> = Payroll(
    fiscalYear: Option<int>,
    payrollNumber: Option<int>,
    agencyID: Option<int>,
    agencyName: Option<string>,
    employeeID: Option<int>,
    lastName: Option<string>,
    firstName: Option<string>,
    agencyStartDate: Option<D>,
    workLocationBorough: Option<string>,
    titleCode: Option<int>,
    titleDescription: Option<string>,
    leaveStatusasofJune30: Option<string>,
    baseSalary: Option<real>,
    payBasis: Option<string>,
    regularHours: Option<real>,
    regularGrossPaid: Option<real>,
    otHours: Option<real>,
    totalOTPaid: Option<real>,
    totalOtherPay: Option<real>)

  /** A row as read from the raw file. */
  type RawRecord = Payroll<string>

  /** A row after date coercion, with the `PayBasisID` column added by the mapping. */
  datatype Record = Record(row: Payroll<Timestamp>, payBasisID: Option<int>)

  /** The columns of the cleaned record set. */
  const CleanedColumns: seq<Column> := [
    FiscalYear, PayrollNumber, AgencyID, AgencyName, EmployeeID, LastName, FirstName,
    AgencyStartDate, WorkLocationBorough, TitleCode, TitleDescription, LeaveStatusasofJune30,
    BaseSalary, PayBasis, RegularHours, RegularGrossPaid, OTHours, TotalOTPaid, TotalOtherPay,
    PayBasisID]

  /** The columns of the cleaned set: every column except the date-dimension columns and
      the fact table's `FactID` (`CleanedColumnsExactly` ties this to the list). */
  predicate IsCleanedColumn(c: Column) {
    !(c.DateID? || c.Date? || c.Year? || c.Month? || c.Day? || c.Quarter? || c.FactID?)
  }

  lemma CleanedColumnsExactly(c: Column)
    ensures c in CleanedColumns <==> IsCleanedColumn(c)
  {
    if IsCleanedColumn(c) {
      match c
      case FiscalYear => assert CleanedColumns[0] == c;
      case PayrollNumber => assert CleanedColumns[1] == c;
      case AgencyID => assert CleanedColumns[2] == c;
      case AgencyName => assert CleanedColumns[3] == c;
      case EmployeeID => assert CleanedColumns[4] == c;
      case LastName => assert CleanedColumns[5] == c;
      case FirstName => assert CleanedColumns[6] == c;
      case AgencyStartDate => assert CleanedColumns[7] == c;
      case WorkLocationBorough => assert CleanedColumns[8] == c;
      case TitleCode => assert CleanedColumns[9] == c;
      case TitleDescription => assert CleanedColumns[10] == c;
      case LeaveStatusasofJune30 => assert CleanedColumns[11] == c;
      case BaseSalary => assert CleanedColumns[12] == c;
      case PayBasis => assert CleanedColumns[13] == c;
      case RegularHours => assert CleanedColumns[14] == c;
      case RegularGrossPaid => assert CleanedColumns[15] == c;
      case OTHours => assert CleanedColumns[16] == c;
      case TotalOTPaid => assert CleanedColumns[17] == c;
      case TotalOtherPay => assert CleanedColumns[18] == c;
      case PayBasisID => assert CleanedColumns[19] == c;
    }
  }

  function IntCell(o: Option<int>): Value {
    match o
    case Some(v) => IntV(v)
    case None => Null
  }

  function RealCell(o: Option<real>): Value {
    match o
    case Some(v) => RealV(v)
    case None => Null
  }

  function TextCell(o: Option<string>): Value {
    match o
    case Some(v) => TextV(v)
    case None => Null
  }

  function TimeCell(o: Option<Timestamp>): Value {
    match o
    case Some(v) => TimeV(v)
    case None => Null
  }

  /** The cell of column `c`; `Null` for a column the cleaned set does not have. */
  function Cell(r: Record, c: Column): Value {
    var p := r.row;
    match c
    case FiscalYear => IntCell(p.fiscalYear)
    case PayrollNumber => IntCell(p.payrollNumber)
    case AgencyID => IntCell(p.agencyID)
    case AgencyName => TextCell(p.agencyName)
    case EmployeeID => IntCell(p.employeeID)
    case LastName => TextCell(p.lastName)
    case FirstName => TextCell(p.firstName)
    case AgencyStartDate => TimeCell(p.agencyStartDate)
    case WorkLocationBorough => TextCell(p.workLocationBorough)
    case TitleCode => IntCell(p.titleCode)
    case TitleDescription => TextCell(p.titleDescription)
    case LeaveStatusasofJune30 => TextCell(p.leaveStatusasofJune30)
    case BaseSalary => RealCell(p.baseSalary)
    case PayBasis => TextCell(p.payBasis)
    case RegularHours => RealCell(p.regularHours)
    case RegularGrossPaid => RealCell(p.regularGrossPaid)
    case OTHours => RealCell(p.otHours)
    case TotalOTPaid => RealCell(p.totalOTPaid)
    case TotalOtherPay => RealCell(p.totalOtherPay)
    case PayBasisID => IntCell(r.payBasisID)
    case _ => Null
  }

  /** The record as a row of the cleaned file. */
  function RecordRow(r: Record): (row: Row)
    ensures row.Keys == set c | c in CleanedColumns
    ensures forall c :: c in CleanedColumns ==> row[c] == Cell(r, c)
  {
    map c | c in CleanedColumns :: Cell(r, c)
  }

  /** The cleaned record set as the frame written to, and read back from, the cleaned file. */
  function CleanedFrame(rs: seq<Record>): (f: Frame)
    ensures f.columns == CleanedColumns && |f.rows| == |rs|
    ensures forall i :: 0 <= i < |rs| ==> f.rows[i] == RecordRow(rs[i])
  {
    Frame(CleanedColumns, seq(|rs|, i requires 0 <= i < |rs| => RecordRow(rs[i])))
  }

  // ----- reading the cleaned file back -----

  /** The cell of column `c` read back as an optional value of the column's kind: `None`
      for a missing column or a cell of another kind, `Some(None)` for an empty cell. */
  function IntAt(row: Row, c: Column): Option<Option<int>> {
    if c !in row then None
    else match row[c]
      case IntV(v) => Some(Some(v))
      case Null => Some(None)
      case _ => None
  }

  function RealAt(row: Row, c: Column): Option<Option<real>> {
    if c !in row then None
    else match row[c]
      case RealV(v) => Some(Some(v))
      case Null => Some(None)
      case _ => None
  }

  function TextAt(row: Row, c: Column): Option<Option<string>> {
    if c !in row then None
    else match row[c]
      case TextV(v) => Some(Some(v))
      case Null => Some(None)
      case _ => None
  }

  function TimeAt(row: Row, c: Column): Option<Option<Timestamp>> {
    if c !in row then None
    else match row[c]
      case TimeV(v) => Some(Some(v))
      case Null => Some(None)
      case _ => None
  }

  /** Every column of the cleaned set is present with a cell of its kind. */
  predicate Decodes(row: Row) {
    && IntAt(row, FiscalYear).Some? && IntAt(row, PayrollNumber).Some? && IntAt(row, AgencyID).Some?
    && TextAt(row, AgencyName).Some? && IntAt(row, EmployeeID).Some? && TextAt(row, LastName).Some?
    && TextAt(row, FirstName).Some? && TimeAt(row, AgencyStartDate).Some?
    && TextAt(row, WorkLocationBorough).Some? && IntAt(row, TitleCode).Some?
    && TextAt(row, TitleDescription).Some? && TextAt(row, LeaveStatusasofJune30).Some?
    && RealAt(row, BaseSalary).Some? && TextAt(row, PayBasis).Some? && RealAt(row, RegularHours).Some?
    && RealAt(row, RegularGrossPaid).Some? && RealAt(row, OTHours).Some? && RealAt(row, TotalOTPaid).Some?
    && RealAt(row, TotalOtherPay).Some? && IntAt(row, PayBasisID).Some?
  }

  /** A row of the cleaned file read back as a record, column by column; `None` when a
      column is missing or holds a cell of another kind. */
  function RecordOf(row: Row): Option<Record> {
    if !Decodes(row) then None
    else Some(Record(Payroll(
      IntAt(row, FiscalYear).value, IntAt(row, PayrollNumber).value, IntAt(row, AgencyID).value,
      TextAt(row, AgencyName).value, IntAt(row, EmployeeID).value, TextAt(row, LastName).value,
      TextAt(row, FirstName).value, TimeAt(row, AgencyStartDate).value,
      TextAt(row, WorkLocationBorough).value, IntAt(row, TitleCode).value,
      TextAt(row, TitleDescription).value, TextAt(row, LeaveStatusasofJune30).value,
      RealAt(row, BaseSalary).value, TextAt(row, PayBasis).value, RealAt(row, RegularHours).value,
      RealAt(row, RegularGrossPaid).value, RealAt(row, OTHours).value, RealAt(row, TotalOTPaid).value,
      RealAt(row, TotalOtherPay).value), IntAt(row, PayBasisID).value))
  }

  /** Writing a record as a row loses nothing: the row reads back as the record. */
  lemma RecordRowRoundTrip(r: Record)
    ensures RecordOf(RecordRow(r)) == Some(r)
  {
    var row := RecordRow(r);
    forall c | IsCleanedColumn(c) ensures c in row && row[c] == Cell(r, c) {
      ColumnOfRow(r, c);
    }
    RecordOfCells(r, row);
  }

  /** Each column of the cleaned set is a key of the record's row, holding its cell. */
  lemma ColumnOfRow(r: Record, c: Column)
    requires IsCleanedColumn(c)
    ensures c in RecordRow(r) && RecordRow(r)[c] == Cell(r, c)
  {
    CleanedColumnsExactly(c);
  }

  /** The record's cells, under its column names. */
  ghost predicate CellsOf(r: Record, row: Row) {
    forall c :: IsCleanedColumn(c) ==> c in row && row[c] == Cell(r, c)
  }

  /** Any row holding a record's cells reads back as that record. */
  lemma RecordOfCells(r: Record, row: Row)
    requires CellsOf(r, row)
    ensures RecordOf(row) == Some(r)
  {
    CellsReadBack1(r, row);
    CellsReadBack2(r, row);
    CellsReadBack3(r, row);
    CellsReadBack4(r, row);
  }

  lemma CellsReadBack1(r: Record, row: Row)
    requires CellsOf(r, row)
    ensures IntAt(row, FiscalYear) == Some(r.row.fiscalYear)
    ensures IntAt(row, PayrollNumber) == Some(r.row.payrollNumber)
    ensures IntAt(row, AgencyID) == Some(r.row.agencyID)
    ensures TextAt(row, AgencyName) == Some(r.row.agencyName)
    ensures IntAt(row, EmployeeID) == Some(r.row.employeeID)
  {
    assert IsCleanedColumn(FiscalYear);
    assert IsCleanedColumn(PayrollNumber);
    assert IsCleanedColumn(AgencyID);
    assert IsCleanedColumn(AgencyName);
    assert IsCleanedColumn(EmployeeID);
  }

  lemma CellsReadBack2(r: Record, row: Row)
    requires CellsOf(r, row)
    ensures TextAt(row, LastName) == Some(r.row.lastName)
    ensures TextAt(row, FirstName) == Some(r.row.firstName)
    ensures TimeAt(row, AgencyStartDate) == Some(r.row.agencyStartDate)
    ensures TextAt(row, WorkLocationBorough) == Some(r.row.workLocationBorough)
    ensures IntAt(row, TitleCode) == Some(r.row.titleCode)
  {
    assert IsCleanedColumn(LastName);
    assert IsCleanedColumn(FirstName);
    assert IsCleanedColumn(AgencyStartDate);
    assert IsCleanedColumn(WorkLocationBorough);
    assert IsCleanedColumn(TitleCode);
  }

  lemma CellsReadBack3(r: Record, row: Row)
    requires CellsOf(r, row)
    ensures TextAt(row, TitleDescription) == Some(r.row.titleDescription)
    ensures TextAt(row, LeaveStatusasofJune30) == Some(r.row.leaveStatusasofJune30)
    ensures RealAt(row, BaseSalary) == Some(r.row.baseSalary)
    ensures TextAt(row, PayBasis) == Some(r.row.payBasis)
    ensures RealAt(row, RegularHours) == Some(r.row.regularHours)
  {
    assert IsCleanedColumn(TitleDescription);
    assert IsCleanedColumn(LeaveStatusasofJune30);
    assert IsCleanedColumn(BaseSalary);
    assert IsCleanedColumn(PayBasis);
    assert IsCleanedColumn(RegularHours);
  }

  lemma CellsReadBack4(r: Record, row: Row)
    requires CellsOf(r, row)
    ensures RealAt(row, RegularGrossPaid) == Some(r.row.regularGrossPaid)
    ensures RealAt(row, OTHours) == Some(r.row.otHours)
    ensures RealAt(row, TotalOTPaid) == Some(r.row.totalOTPaid)
    ensures RealAt(row, TotalOtherPay) == Some(r.row.totalOtherPay)
    ensures IntAt(row, PayBasisID) == Some(r.payBasisID)
  {
    assert IsCleanedColumn(RegularGrossPaid);
    assert IsCleanedColumn(OTHours);
    assert IsCleanedColumn(TotalOTPaid);
    assert IsCleanedColumn(TotalOtherPay);
    assert IsCleanedColumn(PayBasisID);
  }

  /** The cleaned frame reads back, row by row, as the record set it was built from. */
  lemma CleanedFrameRoundTrip(rs: seq<Record>)
    ensures |CleanedFrame(rs).rows| == |rs|
    ensures forall i :: 0 <= i < |rs| ==> RecordOf(CleanedFrame(rs).rows[i]) == Some(rs[i])
  {
    forall i | 0 <= i < |rs| ensures RecordOf(CleanedFrame(rs).rows[i]) == Some(rs[i]) {
      RecordRowRoundTrip(rs[i]);
    }
  }
}
