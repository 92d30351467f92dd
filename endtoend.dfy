/** What the load builds from what the transform wrote: the cleaned file and the date
    dimension of one `transform_data` run, merged into `FactPayroll`. */
module EndToEnd {
  import opened Wrappers
  import opened Frames
  import opened Payroll
  import opened DimDate
  import opened Transform
  import opened Facts
  import opened Loader

  /** The fact columns that come from the cleaned file: all but `DateID`. */
  predicate FromCleaned(c: Column) {
    c in FactSelection && c != DateID
  }

  /** The fact row for the record `r` with ID `id`: its `FactID` is `id`, its `DateID`
      the record's fiscal year times 10000, and its other fact cells are the record's. */
  ghost predicate FactOfRecord(r: Record, id: int, fact: Row)
    requires r.row.fiscalYear.Some?
  {
    && FactID in fact && fact[FactID] == IntV(id)
    && DateID in fact && fact[DateID] == IntV(r.row.fiscalYear.value * 10000)
    && forall c :: FromCleaned(c) ==> c in fact && fact[c] == Cell(r, c)
  }

  /** The fact table has one row per record, in the records' order, numbered from 1. */
  ghost predicate FactsOfRecords(rs: seq<Record>, fact: Frame)
    requires forall i :: 0 <= i < |rs| ==> rs[i].row.fiscalYear.Some?
  {
    && fact.columns == FactLayout && |fact.rows| == |rs|
    && forall i :: 0 <= i < |rs| ==> FactOfRecord(rs[i], i + 1, fact.rows[i])
  }

  /** Each record of a successful transform with at least one record yields exactly one
      fact row, in its own position: the fact table the load builds from the two files
      the transform wrote has, in row `i`, `FactID = i + 1`,
      `DateID = FiscalYear * 10000` and the record's other fact cells. */
  lemma FactRowPerCleanedRecord(raw: seq<RawRecord>, parse: string -> Option<Timestamp>, out: Cleaned)
    requires TransformData(raw, parse) == Ok(out) && |out.records| > 0
    ensures var fact := FactPayroll(CleanedFrame(out.records), DateFrame(out.dimDate));
      fact.Ok? && FactsOfRecords(out.records, fact.value)
  {
    DimDateOnePerYear(raw, parse, out);
    FactTable(out.records, out.dimDate);
  }

  /** The same claim for any order in which the merge returns its rows: with the merged
      rows in the order `p`, fact row `j` is the fact of record `p[j]` with `FactID = j + 1`,
      so every record has exactly one fact row, the one `p` assigns it. */
  lemma FactsInAnyMergeOrder(raw: seq<RawRecord>, parse: string -> Option<Timestamp>, out: Cleaned, p: seq<nat>)
    requires TransformData(raw, parse) == Ok(out) && |out.records| > 0 && IsReordering(p, |out.records|)
    ensures forall i :: 0 <= i < |out.records| ==> out.records[i].row.fiscalYear.Some?
    ensures var merged := Merge(CleanedFrame(out.records), FiscalYear, DateFrame(out.dimDate), Year);
      && merged.Ok? && |merged.value.rows| == |out.records|
      && var fact := FactFromMerged(Reordered(merged.value, p));
         fact.Ok? && FactsOfRecordsInOrder(out.records, p, fact.value)
  {
    DimDateOnePerYear(raw, parse, out);
    FactTableInAnyOrder(out.records, out.dimDate, p);
  }

  /** The fact table has one row per record, numbered from 1, and row `j` is the fact of
      record `p[j]`. As `p` lists every record exactly once, this matches records and fact
      rows one to one. */
  ghost predicate FactsOfRecordsInOrder(rs: seq<Record>, p: seq<nat>, fact: Frame)
    requires forall i :: 0 <= i < |rs| ==> rs[i].row.fiscalYear.Some?
    requires IsReordering(p, |rs|)
  {
    && fact.columns == FactLayout && |fact.rows| == |rs|
    && forall j :: 0 <= j < |p| ==> FactOfRecord(rs[p[j]], j + 1, fact.rows[j])
  }

  /** Whatever order the merge returns its rows in, the fact table numbers them 1..N in
      that order and matches the records one to one. */
  lemma FactTableInAnyOrder(rs: seq<Record>, dd: seq<DateRow>, p: seq<nat>)
    requires forall i :: 0 <= i < |rs| ==> rs[i].row.fiscalYear.Some?
    requires |rs| > 0 && DimDateCoversYears(rs, dd) && IsReordering(p, |rs|)
    ensures var merged := Merge(CleanedFrame(rs), FiscalYear, DateFrame(dd), Year);
      && merged.Ok? && |merged.value.rows| == |rs|
      && var fact := FactFromMerged(Reordered(merged.value, p));
         fact.Ok? && FactsOfRecordsInOrder(rs, p, fact.value)
  {
    ReorderedJoins(rs, dd, p);
    var m := Reordered(Merge(CleanedFrame(rs), FiscalYear, DateFrame(dd), Year).value, p);
    var fact := FactFromMerged(m);
    assert fact.Ok?;
    FactsFromReordered(rs, dd, p, m, fact.value);
  }

  /** Fact rows numbered in order, each keeping the fact cells of the merged row in its
      position, where merged row `j` joins record `p[j]`, are the facts of the records in
      the order `p`. */
  lemma FactsFromReordered(rs: seq<Record>, dd: seq<DateRow>, p: seq<nat>, m: Frame, fact: Frame)
    requires forall i :: 0 <= i < |rs| ==> rs[i].row.fiscalYear.Some?
    requires forall k :: 0 <= k < |dd| ==> dd[k].dateID == dd[k].year * 10000
    requires IsReordering(p, |rs|) && |m.rows| == |p|
    requires forall j :: 0 <= j < |p| ==>
      JoinedTo(m.rows[j], CleanedFrame(rs).rows[p[j]], FiscalYear, DateFrame(dd).rows, Year)
    requires fact.columns == FactLayout && |fact.rows| == |m.rows|
    requires forall j :: 0 <= j < |m.rows| ==>
      FactID in fact.rows[j] && fact.rows[j][FactID] == IntV(j + 1) && KeepsFactCells(fact.rows[j], m.rows[j])
    ensures FactsOfRecordsInOrder(rs, p, fact)
  {
    forall j | 0 <= j < |p| ensures FactOfRecord(rs[p[j]], j + 1, fact.rows[j]) {
      FactOfMergedRow(rs, dd, m.rows[j], p[j], j + 1, fact.rows[j]);
    }
  }

  /** The merged rows in the order `p`: row `j` joins cleaned row `p[j]` to the date row of
      its year, and the twelve fact columns are all there. */
  lemma ReorderedJoins(rs: seq<Record>, dd: seq<DateRow>, p: seq<nat>)
    requires forall i :: 0 <= i < |rs| ==> rs[i].row.fiscalYear.Some?
    requires |rs| > 0 && DimDateCoversYears(rs, dd) && IsReordering(p, |rs|)
    ensures var merged := Merge(CleanedFrame(rs), FiscalYear, DateFrame(dd), Year);
      && merged.Ok? && |merged.value.rows| == |rs|
      && var m := Reordered(merged.value, p);
         && (forall c :: c in FactSelection ==> c in m.columns)
         && forall j :: 0 <= j < |p| ==>
              JoinedTo(m.rows[j], CleanedFrame(rs).rows[p[j]], FiscalYear, DateFrame(dd).rows, Year)
  {
    var cleaned := CleanedFrame(rs);
    var dimDate := DateFrame(dd);
    JoinConditions(rs, dd);
    MergeRowsOneToOne(cleaned.rows, FiscalYear, dimDate.rows, Year);
    var merged := Merge(cleaned, FiscalYear, dimDate, Year).value;
    assert merged.columns == cleaned.columns + dimDate.columns;
  }

  /** A fact row that keeps the fact cells of the merged row joining record `i` to a date
      row with its year is the fact of record `i`. */
  lemma FactOfMergedRow(rs: seq<Record>, dd: seq<DateRow>, x: Row, i: nat, id: int, fact: Row)
    requires forall k :: 0 <= k < |rs| ==> rs[k].row.fiscalYear.Some?
    requires forall k :: 0 <= k < |dd| ==> dd[k].dateID == dd[k].year * 10000
    requires i < |rs| && JoinedTo(x, CleanedFrame(rs).rows[i], FiscalYear, DateFrame(dd).rows, Year)
    requires KeepsFactCells(fact, x) && FactID in fact && fact[FactID] == IntV(id)
    ensures FactOfRecord(rs[i], id, fact)
  {
    var l := CleanedFrame(rs).rows[i];
    var ds := DateFrame(dd).rows;
    var b :| 0 <= b < |ds| && At(l, FiscalYear) == At(ds[b], Year) && x == l + ds[b];
    assert JoinedAt(fact, l, ds);
    assert l == RecordRow(rs[i]);
    FactRowCells(rs[i], dd, id, fact);
  }

  /** The fact table of a non-empty record set and a date dimension with exactly its years,
      each once, keyed by `year * 10000`. */
  lemma FactTable(rs: seq<Record>, dd: seq<DateRow>)
    requires forall i :: 0 <= i < |rs| ==> rs[i].row.fiscalYear.Some?
    requires |rs| > 0 && DimDateCoversYears(rs, dd)
    ensures var fact := FactPayroll(CleanedFrame(rs), DateFrame(dd));
      fact.Ok? && FactsOfRecords(rs, fact.value)
  {
    var cleaned := CleanedFrame(rs);
    var dimDate := DateFrame(dd);
    JoinConditions(rs, dd);
    FactRows(cleaned, dimDate);
    FactRowsOnePerCleanedRow(cleaned, dimDate);
    FactsFromJoins(rs, dd, FactPayroll(cleaned, dimDate).value);
  }

  /** The merge succeeds, the date dimension's years are distinct and every cleaned row has
      a date row with its year. */
  lemma JoinConditions(rs: seq<Record>, dd: seq<DateRow>)
    requires forall i :: 0 <= i < |rs| ==> rs[i].row.fiscalYear.Some?
    requires |rs| > 0 && DimDateCoversYears(rs, dd)
    ensures FactPayroll(CleanedFrame(rs), DateFrame(dd)).Ok?
    ensures var ds := DateFrame(dd).rows;
      forall a, b :: 0 <= a < b < |ds| ==> At(ds[a], Year) != At(ds[b], Year)
    ensures forall i :: 0 <= i < |rs| ==> HasPartner(CleanedFrame(rs).rows[i], FiscalYear, DateFrame(dd).rows, Year)
  {
    var dimDate := DateFrame(dd);
    assert rs[0].row.fiscalYear.value in YearsOf(rs);
    assert |dd| > 0;
    MergedHasFactColumns(CleanedFrame(rs), dimDate);
    forall a, b | 0 <= a < b < |dimDate.rows| ensures At(dimDate.rows[a], Year) != At(dimDate.rows[b], Year) {
      assert dd[a].year != dd[b].year;
    }
    forall i | 0 <= i < |rs| ensures HasPartner(CleanedFrame(rs).rows[i], FiscalYear, dimDate.rows, Year) {
      RecordHasDateRow(rs, dd, i);
    }
  }

  /** Fact rows numbered in order, each joined from its own cleaned record, are the facts of
      the records. */
  lemma FactsFromJoins(rs: seq<Record>, dd: seq<DateRow>, fact: Frame)
    requires forall i :: 0 <= i < |rs| ==> rs[i].row.fiscalYear.Some?
    requires forall k :: 0 <= k < |dd| ==> dd[k].dateID == dd[k].year * 10000
    requires fact.columns == FactLayout && |fact.rows| == |rs|
    requires forall i :: 0 <= i < |rs| ==> FactID in fact.rows[i] && fact.rows[i][FactID] == IntV(i + 1)
    requires forall i :: 0 <= i < |rs| ==> JoinedAt(fact.rows[i], CleanedFrame(rs).rows[i], DateFrame(dd).rows)
    ensures FactsOfRecords(rs, fact)
  {
    forall i | 0 <= i < |rs| ensures FactOfRecord(rs[i], i + 1, fact.rows[i]) {
      assert CleanedFrame(rs).rows[i] == RecordRow(rs[i]);
      FactRowCells(rs[i], dd, i + 1, fact.rows[i]);
    }
  }

  /** A successful transform without records writes a date dimension without rows, hence
      an empty file: the load writes the three dimension projections of the cleaned file
      (a header only), then raises `EmptyData` reading `dim_date` back, and never commits. */
  lemma EmptyRunStopsAtDimDate(raw: seq<RawRecord>, parse: string -> Option<Timestamp>, out: Cleaned)
    requires TransformData(raw, parse) == Ok(out) && |out.records| == 0
    ensures out.dimDate == []
    ensures var p := LoadPlan(CleanedFrame(out.records), DateFrame(out.dimDate));
      p.failure == Some(EmptyData) && |p.stmts| == |Setup()| + 3 && Commit !in p.stmts
  {
    DimDateOnePerYear(raw, parse, out);
    DimensionsAreProjections(out.records);
    CommitOnlyAtTheEnd(CleanedFrame(out.records), DateFrame(out.dimDate));
  }

  /** The merge of the cleaned file with a non-empty date dimension has every fact column. */
  lemma MergedHasFactColumns(cleaned: Frame, dimDate: Frame)
    requires cleaned.columns == CleanedColumns && dimDate.columns == DateColumns
    ensures Merge(cleaned, FiscalYear, dimDate, Year).Ok?
    ensures FactPayroll(cleaned, dimDate).Ok?
  {
    assert FiscalYear == CleanedColumns[0] && Year == DateColumns[2];
    var merged := Merge(cleaned, FiscalYear, dimDate, Year).value;
    forall c | c in FactSelection ensures c in merged.columns {
      if c == DateID {
        assert DateColumns[0] == c;
      } else {
        CleanedColumnsExactly(c);
      }
    }
  }

  /** The fiscal year of every cleaned record is the year of some row of the date dimension. */
  lemma RecordHasDateRow(rs: seq<Record>, dd: seq<DateRow>, i: nat)
    requires forall k :: 0 <= k < |rs| ==> rs[k].row.fiscalYear.Some?
    requires DimDateCoversYears(rs, dd) && i < |rs|
    ensures HasPartner(CleanedFrame(rs).rows[i], FiscalYear, DateFrame(dd).rows, Year)
  {
    var y := rs[i].row.fiscalYear.value;
    assert y in YearsOf(rs);
    var k :| 0 <= k < |dd| && dd[k].year == y;
    assert At(CleanedFrame(rs).rows[i], FiscalYear) == IntV(y);
    assert At(DateFrame(dd).rows[k], Year) == IntV(y);
  }

  /** A fact row joined from the record `r` and a date row with its year: the date row
      gives `DateID`, the record every other fact cell. */
  lemma FactRowCells(r: Record, dd: seq<DateRow>, id: int, fact: Row)
    requires r.row.fiscalYear.Some?
    requires forall k :: 0 <= k < |dd| ==> dd[k].dateID == dd[k].year * 10000
    requires JoinedAt(fact, RecordRow(r), DateFrame(dd).rows)
    requires FactID in fact && fact[FactID] == IntV(id)
    ensures FactOfRecord(r, id, fact)
  {
    var l := RecordRow(r);
    var ds := DateFrame(dd).rows;
    var b :| 0 <= b < |ds| && At(l, FiscalYear) == At(ds[b], Year) && KeepsFactCells(fact, l + ds[b]);
    CleanedColumnsExactly(DateID);
    CleanedColumnsExactly(FiscalYear);
    FromCleanedColumns();
    assert ds[b].Keys == {DateID, Date, Year, Month, Day, Quarter};
    forall c | FromCleaned(c) ensures c !in ds[b] {
      NotDateKey(c, ds[b]);
    }
    JoinedCells(l, ds[b], fact);
    assert At(l, FiscalYear) == IntV(r.row.fiscalYear.value);
  }

  /** The fact columns other than `DateID` are cleaned columns. */
  lemma FromCleanedColumns()
    ensures forall c :: FromCleaned(c) ==> IsCleanedColumn(c) && c in CleanedColumns
  {
    forall c | FromCleaned(c) ensures IsCleanedColumn(c) && c in CleanedColumns {
      CleanedColumnsExactly(c);
    }
  }

  /** A cleaned column is not a key of a date row. */
  lemma NotDateKey(c: Column, d: Row)
    requires d.Keys == {DateID, Date, Year, Month, Day, Quarter} && IsCleanedColumn(c)
    ensures c !in d
  {
    assert c !in d.Keys;
  }

  /** Of the union of a row `l` without `DateID` and a row `d` with it and without the
      other fact columns, the fact cells keep `d`'s `DateID` and `l`'s other cells. */
  lemma JoinedCells(l: Row, d: Row, fact: Row)
    requires KeepsFactCells(fact, l + d)
    requires DateID in d && DateID !in l
    requires forall c :: FromCleaned(c) ==> c !in d
    ensures DateID in fact && fact[DateID] == d[DateID]
    ensures forall c :: FromCleaned(c) ==> c in fact && fact[c] == At(l, c)
  {
    assert DateID in FactSelection;
  }
}
