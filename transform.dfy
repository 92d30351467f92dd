/** `transform_data` (transform.py): the cleaning steps in the order the code applies them,
    and what the cleaned set and the date dimension promise together. */
module Transform {
  import opened Wrappers
  import opened Frames
  import opened Payroll
  import opened Cleaning
  import opened DimDate

  /** What `transform_data` writes: the cleaned record set and the rows of `dim_date`. */
  datatype Cleaned = Cleaned(records: seq<Record>, dimDate: seq<DateRow>)

  /** The records after deduplication, coercion and the PayBasis mapping, before the fill:
      one record per distinct raw row, in order, holding that row coerced, and every one
      carrying an ID between 1 and the number of records. */
  function Mapped(raw: seq<RawRecord>, parse: string -> Option<Timestamp>): (r: seq<Record>)
    ensures |r| == |DropDuplicates(raw)|
    ensures forall i :: 0 <= i < |r| ==>
      && CoercedFrom(r[i].row, DropDuplicates(raw)[i], parse)
      && r[i].payBasisID.Some? && 1 <= r[i].payBasisID.value <= |r|
  {
    var coerced := CoerceAll(DropDuplicates(raw), parse);
    MappedRowsCarryTheirID(coerced);
    AssignPayBasisIDs(coerced, PayBasisMapping(coerced))
  }

  /** The cleaned record set: the mapped records filled with values computed from them. */
  function CleanRecords(raw: seq<RawRecord>, parse: string -> Option<Timestamp>): (rs: seq<Record>)
    ensures |rs| == |DropDuplicates(raw)| <= |raw|
    ensures forall i :: 0 <= i < |rs| ==> rs[i].row.fiscalYear.Some?
  {
    var mapped := Mapped(raw, parse);
    var filled := Fill(mapped, ComputeFillValues(mapped));
    FilledYearsPresent(mapped, ComputeFillValues(mapped));
    filled
  }

  /** Every year of a filled record set is in range. */
  ghost predicate YearsInRange(rs: seq<Record>)
    requires forall i :: 0 <= i < |rs| ==> rs[i].row.fiscalYear.Some?
  {
    forall i :: 0 <= i < |rs| ==> InRange(rs[i].row.fiscalYear.value)
  }

  /** `transform_data`: deduplicate, coerce `AgencyStartDate`, map PayBasis to IDs, compute
      the fill values, fill, list the distinct fiscal years and generate `dim_date`. The
      only exception it raises is the one `pd.Timestamp` raises for an out-of-range year. */
  function TransformData(raw: seq<RawRecord>, parse: string -> Option<Timestamp>): (r: Result<Cleaned, TransformError>)
    ensures r.Ok? <==> YearsInRange(CleanRecords(raw, parse))
    ensures r.Ok? ==> r.value.records == CleanRecords(raw, parse)
  {
    var filled := CleanRecords(raw, parse);
    match DateDimension(filled)
    case Err(e) => Err(e)
    case Ok(dd) => Ok(Cleaned(filled, dd))
  }

  /** `generate_Dim_Date_Table` applied to the distinct years of the filled set: it fails
      exactly when some year is out of range, and otherwise has one row per distinct year,
      keyed by `year * 10000`, and no row for a year the set does not have. */
  function DateDimension(rs: seq<Record>): (r: Result<seq<DateRow>, TransformError>)
    requires forall i :: 0 <= i < |rs| ==> rs[i].row.fiscalYear.Some?
    ensures r.Ok? <==> YearsInRange(rs)
    ensures r.Ok? ==> DimDateCoversYears(rs, r.value)
  {
    var years := FiscalYears(rs);
    YearsInRangeIff(rs, years);
    if DimDateTable(years).Ok? then DimDateCovers(rs, years, DimDateTable(years).value); DimDateTable(years)
    else DimDateTable(years)
  }

  /** The fiscal years of a filled record set. */
  ghost function YearsOf(rs: seq<Record>): set<int>
    requires forall i :: 0 <= i < |rs| ==> rs[i].row.fiscalYear.Some?
  {
    set i | 0 <= i < |rs| :: rs[i].row.fiscalYear.value
  }

  /** The years of the date dimension's rows. */
  ghost function DimYears(dd: seq<DateRow>): set<int> {
    set k | 0 <= k < |dd| :: dd[k].year
  }

  /** `dd` has exactly the years of `rs`, each once, keyed by `year * 10000`. */
  ghost predicate DimDateCoversYears(rs: seq<Record>, dd: seq<DateRow>)
    requires forall i :: 0 <= i < |rs| ==> rs[i].row.fiscalYear.Some?
  {
    && DimYears(dd) == YearsOf(rs)
    && (forall k :: 0 <= k < |dd| ==> dd[k].dateID == dd[k].year * 10000)
    && (forall a, b :: 0 <= a < b < |dd| ==> dd[a].year != dd[b].year)
  }

  /** The date dimension of a filled record set exists exactly when every year is in range. */
  lemma YearsInRangeIff(rs: seq<Record>, years: seq<int>)
    requires forall i :: 0 <= i < |rs| ==> rs[i].row.fiscalYear.Some?
    requires years == FiscalYears(rs)
    ensures (forall k :: 0 <= k < |years| ==> InRange(years[k])) <==> YearsInRange(rs)
  {
    if YearsInRange(rs) {
      forall k | 0 <= k < |years| ensures InRange(years[k]) {
        assert years[k] in years;
        var i :| 0 <= i < |rs| && rs[i].row.fiscalYear == Some(years[k]);
      }
    } else {
      var i :| 0 <= i < |rs| && !InRange(rs[i].row.fiscalYear.value);
      assert rs[i].row.fiscalYear.value in years;
    }
  }

  /** The date dimension generated from a filled record set has one row per distinct year,
      keyed by `year * 10000`, and no row for a year the set does not have. */
  lemma DimDateCovers(rs: seq<Record>, years: seq<int>, dd: seq<DateRow>)
    requires forall i :: 0 <= i < |rs| ==> rs[i].row.fiscalYear.Some?
    requires years == FiscalYears(rs) && DimDateTable(years) == Ok(dd)
    ensures DimDateCoversYears(rs, dd)
  {
    forall y | y in YearsOf(rs) ensures y in DimYears(dd) {
      var i :| 0 <= i < |rs| && rs[i].row.fiscalYear.value == y;
      assert y in years;
      var k :| 0 <= k < |years| && years[k] == y;
      assert IsDateRowFor(dd[k], years[k]);
    }
    forall y | y in DimYears(dd) ensures y in YearsOf(rs) {
      var k :| 0 <= k < |dd| && dd[k].year == y;
      assert IsDateRowFor(dd[k], years[k]);
      assert years[k] in years;
      var i :| 0 <= i < |rs| && rs[i].row.fiscalYear == Some(years[k]);
    }
    forall k | 0 <= k < |dd| ensures dd[k].dateID == dd[k].year * 10000 {
      assert IsDateRowFor(dd[k], years[k]);
    }
    forall a, b | 0 <= a < b < |dd| ensures dd[a].year != dd[b].year {
      assert IsDateRowFor(dd[a], years[a]) && IsDateRowFor(dd[b], years[b]);
    }
  }

  /** DimDate has exactly one row per fiscal year of the cleaned set, keyed by
      `year * 10000`, and no row for any other year. */
  lemma DimDateOnePerYear(raw: seq<RawRecord>, parse: string -> Option<Timestamp>, out: Cleaned)
    requires TransformData(raw, parse) == Ok(out)
    ensures DimDateCoversYears(out.records, out.dimDate)
  {
  }

  /** Each of `rs` shows its coerced row's label, `"Unknown"` for a missing one, and
      carries the ID that the first-seen numbering of the coerced labels gave it; the IDs
      run over 1..k for the k distinct labels. */
  ghost predicate CarriesPayBasisIDs(coerced: seq<Payroll<Timestamp>>, rs: seq<Record>) {
    var m := PayBasisMapping(coerced);
    |rs| == |coerced| &&
    forall i :: 0 <= i < |rs| ==>
      rs[i].row.payBasis == Some(coerced[i].payBasis.GetOr("Unknown")) &&
      coerced[i].payBasis in m && rs[i].payBasisID == Some(m[coerced[i].payBasis]) &&
      1 <= m[coerced[i].payBasis] <= |DropDuplicates(PayBasisColumn(coerced))|
  }

  /** The fill, whatever its numeric values, keeps the IDs the mapping assigned. */
  lemma PayBasisSurvivesFill(coerced: seq<Payroll<Timestamp>>, fv: FillValues)
    ensures CarriesPayBasisIDs(coerced, Fill(AssignPayBasisIDs(coerced, PayBasisMapping(coerced)), fv))
  {
    MappedRowsCarryTheirID(coerced);
    PayBasisIDsDense(coerced);
    var m := PayBasisMapping(coerced);
    var mapped := AssignPayBasisIDs(coerced, m);
    var rs := Fill(mapped, fv);
    forall i | 0 <= i < |rs|
      ensures rs[i].row.payBasis == Some(coerced[i].payBasis.GetOr("Unknown"))
      ensures coerced[i].payBasis in m && rs[i].payBasisID == Some(m[coerced[i].payBasis]) &&
        1 <= m[coerced[i].payBasis] <= |DropDuplicates(PayBasisColumn(coerced))|
    {
      assert rs[i] == FillRecord(mapped[i], fv);
      assert m[coerced[i].payBasis] in m.Values;
    }
  }

  /** Every cleaned record carries the ID that the first-seen numbering gave its label as
      it was before the fill. */
  lemma CleanedPayBasisIDs(raw: seq<RawRecord>, parse: string -> Option<Timestamp>)
    ensures CarriesPayBasisIDs(CoerceAll(DropDuplicates(raw), parse), CleanRecords(raw, parse))
  {
    var coerced := CoerceAll(DropDuplicates(raw), parse);
    PayBasisSurvivesFill(coerced, ComputeFillValues(Mapped(raw, parse)));
  }

  /** The mapping is taken before the `"Unknown"` fill: of two records, the first without a
      PayBasis label and the second labelled `"Unknown"`, both read `"Unknown"` once
      cleaned, yet carry the different IDs 1 and 2. */
  lemma MissingAndUnknownLabels(raw: seq<RawRecord>, parse: string -> Option<Timestamp>)
    requires |raw| == 2 && raw[0].payBasis == None && raw[1].payBasis == Some("Unknown")
    ensures var rs := CleanRecords(raw, parse);
      |rs| == 2 && rs[0].row.payBasis == rs[1].row.payBasis == Some("Unknown") &&
      rs[0].payBasisID == Some(1) && rs[1].payBasisID == Some(2)
  {
    assert NoDuplicates(raw);
    DropDuplicatesOfDistinct(raw);
    var coerced := CoerceAll(DropDuplicates(raw), parse);
    var column := PayBasisColumn(coerced);
    assert column == [None, Some("Unknown")];
    assert NoDuplicates(column);
    DropDuplicatesOfDistinct(column);
    PayBasisIDsDense(coerced);
    CleanedPayBasisIDs(raw, parse);
  }
}
