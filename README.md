# NYC payroll ETL, modelled in Dafny

This project models the core of a small ETL pipeline for New York City payroll data.
It has three stages.

1. **Transform** (`transform_data`). It cleans the raw payroll file: exact duplicate rows are dropped, `AgencyStartDate` is coerced to a date, and `AgencyCode` is renamed to `AgencyID`. Each distinct `PayBasis` label is numbered as `PayBasisID`, and missing cells are filled (numeric columns with their column mean, computed beforehand). It then derives the date dimension: one row per distinct fiscal year, keyed by `int(f"{year}0000")`.
2. **Load** (`load_data_to_snowflake`). Over one warehouse connection it creates the five tables if they are missing, truncates them, and writes three dimension projections of the cleaned file, the date dimension and a fact table. The fact table is an inner merge on `FiscalYear = Year`, numbered `FactID = 1..N` and reordered with `FactID` first. The load then commits.
3. **Orchestration** (`main`). Extract, check that the raw file exists, transform, check that both intermediate files exist, load, then call the stored procedure `"STG".PAYROLL_AGGREGATES`. Every failure is logged and re-raised.

Each stage is written in the form the code takes:

- The cleaning steps are pure whole-frame operations: functions on sequences of typed records (module `Cleaning`, with `Payroll`, `Frames` and `Transform`).
- `generate_Dim_Date_Table` is a loop that appends to a list. It is the method `DimDate.GenerateDimDate`, proved equal to the function `DimDate.DimDateTable`.
- The projections, merge, row numbering and DDL text are functions (`Facts`, `Frames`, `Schema`).
- The warehouse is a class, `Loader.Warehouse`. Its fields are the connection's tables, the committed tables and the statement history, plus an optional failing statement number.
- The load's create and truncate loops, its writes and its commit are methods on that class. Each is proved against `Loader.LoadPlan`, the statement sequence a load sends.
- `main` is the method `Pipeline.RunPipeline`. Its outcome and log are stated for every exit.
- `EndToEnd` connects the transform's output to the fact table the load builds from it.

## Model

| member | source | states |
|---|---|---|
| Cleaning.DropDuplicates | transform.py:57 | the result has no two equal rows, contains every input row and only input rows, and is no longer than the input |
| Cleaning.DropDuplicatesOfDistinct | transform.py:57 | a sequence without duplicates is returned unchanged |
| Cleaning.DropDuplicatesIdempotent | transform.py:57 | deduplicating twice equals deduplicating once |
| Cleaning.DropDuplicatesFirstSeen | transform.py:57 | the kept rows are in the order of their first occurrence in the input |
| Cleaning.Coerce | transform.py:60 | every column but `AgencyStartDate` is unchanged; the date is NaT exactly when the text is missing or does not parse, and otherwise the parsed date |
| Cleaning.CoercedFromUnique | transform.py:60 | that relation determines the coerced row: any row related to the raw row is the coerced one |
| Cleaning.CoerceAll | transform.py:60 | one coerced row per input row, in order, each related to its input row as above |
| Cleaning.CoercionCanEqualizeDistinctRows | transform.py:57-60 | deduplication runs before coercion: two distinct raw rows both survive it, yet are equal once their unparseable start dates become NaT |
| Cleaning.RenameColumns | transform.py:63 | `AgencyCode` no longer appears, every other name is kept in place, and `AgencyID` is present exactly when either name was |
| Cleaning.RenamedHeader | transform.py:31-63 | the raw header, with the agency column under either name, becomes exactly the record's column names |
| Cleaning.Enumerate | transform.py:67 | the dictionary comprehension's keys are exactly the enumerated values, and every ID lies in 1..n |
| Cleaning.EnumerateDistinct | transform.py:67 | on distinct values the k-th value maps to k + 1 |
| Cleaning.PayBasisMapping | transform.py:66-67 | the mapping's keys are exactly the `PayBasis` labels of the rows, the missing marker included, and its IDs lie in 1..n |
| Cleaning.PayBasisIDsDense | transform.py:66-67 | the k-th distinct label in first-seen order gets ID k + 1, every ID lies in 1..(number of distinct labels), and no two labels share an ID |
| Cleaning.MappedRowsCarryTheirID | transform.py:66-68 | every row's label is a key of the mapping and `map` gives the row that label's ID, in 1..n: no row is left unmapped, so the fill's 0 is never used |
| Cleaning.Mean | transform.py:71-76 | a column's mean is NaN exactly when every entry is missing |
| Cleaning.MeanIgnoresMissing | transform.py:71-76 | a missing entry anywhere in a column does not change its mean |
| Cleaning.MeanWithinBounds | transform.py:71-76 | the mean lies between any lower and upper bound of the present entries |
| Cleaning.FillValueNaNIff | transform.py:71-76 | each of the six fill values is NaN exactly when its column has no present entry |
| Cleaning.FillCellOfColumn | transform.py:78-99 | every cleaned column has an entry in the fill dictionary; a present cell is kept and a missing one takes that entry |
| Cleaning.FillChangesOnlyMissingCells | transform.py:78-99 | the fill keeps one record per record, in order; in each, present cells are unchanged and missing cells get their column's fill value |
| Cleaning.FillLeavesNoMissingCells | transform.py:71-99 | after the fill a cell is missing only if its column had no value in any row |
| Cleaning.FillIdempotent | transform.py:78-99 | filling twice with the same values equals filling once |
| Cleaning.MeanAfterFill | transform.py:71-99 | filling a column with its own mean leaves its mean unchanged |
| Cleaning.FillValuesFixedPoint | transform.py:71-99 | the fill values recomputed from the filled set equal the ones used, so a second pass imputes nothing new |
| Cleaning.FilledYearsPresent | transform.py:79 | after the fill every `FiscalYear` is present |
| Cleaning.FiscalYears | transform.py:102 | the year list has no duplicates and holds exactly the fiscal years of the filled rows |
| Decimal.ShowNatValue | transform.py:13 | reading back the decimal digits of n gives n |
| Decimal.FourZeros | transform.py:13 | appending "0000" to a digit string multiplies its value by 10000 |
| Decimal.ParseShowFourZeros | transform.py:13 | `int(f"{n}0000") == n * 10000` for every integer n, negative ones included |
| DimDate.DateKey | transform.py:13 | the key built from the year's text is year * 10000 |
| DimDate.DateRowOf | transform.py:13-21 | one year's row exists exactly when January 1 of the year is in the nanosecond range; otherwise OutOfBoundsDatetime for that year |
| DimDate.DimDateTable | transform.py:8-22 | succeeds iff every year is in range, with one row per year in order (`DateID = y*10000`, `Date` = Jan 1, `Year = y`, `Month = Day = Quarter = 1`); otherwise the error of the first out-of-range year |
| DimDate.GenerateDimDate | transform.py:11-22 | the appending loop computes exactly `DimDateTable` of its years |
| DimDate.FailureIsFinal | transform.py:12-16 | once a prefix of the years fails, the whole list fails with the same error |
| DimDate.DateKeysDistinct | transform.py:11-22 | on distinct years, the rows have distinct keys and distinct years |
| DimDate.DateFrameRoundTrip | transform.py:22 | `pd.DataFrame(date_data)` has one row per dictionary, and each row reads back as its dictionary |
| Payroll.CleanedColumnsExactly | transform.py:31-51 | the cleaned file's columns are exactly the declared raw columns plus `PayBasisID`, and none of the date or fact columns |
| Payroll.RecordRowRoundTrip | transform.py:116 | a record written as a row of the cleaned file reads back as the same record |
| Payroll.CleanedFrameRoundTrip | transform.py:116 | the cleaned file has one row per record, and row i reads back as record i |
| Transform.Mapped | transform.py:57-68 | one mapped record per distinct raw row, in order: its row is that raw row coerced, and its ID lies in 1..n |
| Transform.CleanRecords | transform.py:54-99 | at most one cleaned record per raw row (one per distinct raw row), each with a fiscal year |
| Transform.DateDimension | transform.py:102-105 | the dimension exists iff every fiscal year is in range, and then has exactly the set's years, each once, keyed by year * 10000 |
| Transform.TransformData | transform.py:54-116 | succeeds exactly when every cleaned fiscal year is in range, and then yields the cleaned records |
| Transform.YearsInRangeIff | transform.py:102-105 | every element of the year list is in range iff every record's year is |
| Transform.DimDateCovers | transform.py:102-105 | the generated dimension has one row per distinct year, keyed by year * 10000, and no row for any other year |
| Transform.DimDateOnePerYear | transform.py:102-105 | after a successful transform the date dimension has exactly the cleaned years, each once, keyed by year * 10000 |
| Transform.PayBasisSurvivesFill | transform.py:66-99 | whatever the numeric fill values, each filled record keeps the ID its pre-fill label got, shows "Unknown" for a missing label, and IDs stay in 1..k |
| Transform.CleanedPayBasisIDs | transform.py:66-99 | every cleaned record carries the ID that first-seen numbering gave its label before the fill |
| Transform.MissingAndUnknownLabels | transform.py:66-92 | a row without PayBasis and a row labelled "Unknown" both read "Unknown" once cleaned, yet carry the different IDs 1 and 2 |
| Frames.FirstMissing | load.py:134-138 | no column is reported iff all wanted columns are present; a reported one is wanted and absent |
| Frames.Select | load.py:134-138 | `df[cols]` succeeds iff every column exists; it keeps the row count and order, and each row holds exactly those columns, with the source cells |
| Frames.Merge | load.py:159 | the inner merge fails exactly when a key column is missing |
| Frames.WithRowNumbers | load.py:165 | the columns are the old ones plus the number column (added at most once) and the row count is kept; row i is numbered i + 1 and its other cells are unchanged; `Frames.RowNumbersOneToN` adds that the numbers are exactly 1..N |
| Frames.RowNumbersOneToN | load.py:165 | the numbers are exactly 1..N, pairwise distinct |
| Frames.MatchesSound | load.py:159 | every joined row is the left row extended by a right row with an equal key |
| Frames.MatchesComplete | load.py:159 | every right row with an equal key is joined to the left row |
| Frames.MatchesUnique | load.py:159 | with distinct right keys, a left row with a partner yields exactly one joined row |
| Frames.MergeRowsMembership | load.py:159 | a row is in the merge iff it joins some left row to some right row with an equal key: unmatched rows are dropped and no pair is lost |
| Frames.MergeRowsOneToOne | load.py:159 | when right keys are distinct and every left row has a partner, the merge keeps each left row once, in order, joined to its partner |
| Facts.ReadCsv | load.py:153 | a file written from a frame without columns raises EmptyData; otherwise the frame is read back |
| Facts.Project | load.py:134-148 | the projection succeeds iff every listed column exists, and then keeps row count and order with the listed cells |
| Facts.FactPayroll | load.py:159-172 | the fact table is built iff both join keys exist and each of the 12 selected columns is in one of the two frames; a failure names a missing column; it has the 13-column layout and one row per merged row |
| Facts.FactFromMerged | load.py:160-172 | succeeds iff the merge has the 12 selected columns; columns are the 13-column layout with FactID first, one fact row per merged row, FactID = i + 1, the selected cells kept |
| Facts.NumberedFacts | load.py:165-172 | numbering the selected rows and moving FactID first keeps every selected cell of each row |
| Facts.FactRows | load.py:159-172 | FactID is exactly 1..N in row order and comes first; every fact row joins a cleaned row to a date row with the same year |
| Facts.FactRowsOnePerCleanedRow | load.py:159-162 | with one date row per year and a partner for every cleaned row, each cleaned row yields exactly one fact row, in its own position |
| Facts.SchemaMatchesFrames | load.py:51-172 | each declared table schema lists exactly the columns of the frame written to it |
| Facts.DimensionsAreProjections | load.py:134-148 | Dim_Employee, Dim_Agency and Dim_PayBasis each have one row per cleaned record, in order, with the record's cells: no deduplication |
| Schema.TableNamesDistinct | load.py:51-108 | the five names are Dim_Employee, Dim_Agency, Dim_PayBasis, Dim_Date and FactPayroll, pairwise distinct |
| Schema.SplitJoin | load.py:122 | splitting a `", "`-joined comma-free list at its commas gives the first entry and the others each preceded by a space |
| Schema.SplitDefsJoin | load.py:122 | reading back a joined comma-free list gives the entries |
| Schema.DefTextsCommaFree | load.py:51-108 | no declared name or type contains a comma |
| Schema.CreateTableEntries | load.py:122-123 | the `column_defs` of every declared table splits back into its `"name" TYPE` entries, one per declared column, in order |
| Schema.TruncateRoundTrip | load.py:129 | a `TRUNCATE TABLE "name";` text reads back as `name` exactly when it was built from that name and the name has no double quote |
| Schema.CreateRoundTrip | load.py:122-123 | a `CREATE TABLE IF NOT EXISTS` text built from a quote-free name reads back as that name and its `column_defs` entries |
| Schema.StatementsReadBack | load.py:119-130 | each declared table's CREATE text reads back as its name and declared entries, and its TRUNCATE text as its name |
| Loader.ApplyChangesOnlyItsTable | load.py:124-174 | a statement never drops a table and changes only the one it names: CREATE adds an empty table with the declared columns and leaves an existing one alone, TRUNCATE empties a table and keeps its columns, `to_sql` puts the frame in place |
| Loader.ReplayAppend | load.py:116-178 | running two statement lists in a row is running their concatenation |
| Loader.ReplayUntouched | load.py:116-178 | a table that no statement names comes out of the run unchanged |
| Loader.Then | load.py:133-174 | a write stage that has failed stays failed and sends nothing more; otherwise the frame is written, or computing it raises |
| Loader.WriteStage | load.py:133-174 | the five writes are all replacements, and all five happen exactly when nothing raises |
| Loader.CompleteWrites | load.py:134-174 | a write stage that raises nothing writes the three projections, `dim_date` as read and the fact table, in that order |
| Loader.PlanStatements | load.py:119-178 | a complete load sends the setup, one write per table with its planned frame, then the commit |
| Loader.CompletePlan | load.py:119-178 | a complete load sends 16 statements: the five CREATEs and the five TRUNCATEs in table order, the five writes in the same order, and the commit last |
| Loader.PlannedFrames | load.py:134-174 | a complete load writes one frame to each of the five tables |
| Loader.CommitOnlyAtTheEnd | load.py:178 | a complete load sends 16 statements and commits only with the last one; a load that stops early never commits |
| Loader.CreatesReplay | load.py:119-124 | creating tables adds exactly the missing ones, empty, and never changes an existing table |
| Loader.TruncatesReplay | load.py:128-131 | truncating keeps every table name and its columns, leaves each named table that exists empty, and touches no table outside the list |
| Loader.SetupReplay | load.py:119-131 | create-then-truncate adds exactly the five names, leaves all five empty, keeps an existing table's columns, and leaves every other table unchanged |
| Loader.LoadReplacesTables | load.py:119-178 | after a complete load each of the five tables holds exactly this run's frame, whatever it held before, and other tables are unchanged |
| Loader.WritesReplay | load.py:139-178 | the five writes plus the commit put each frame under its own table name |
| Loader.ReloadIdempotent | load.py:119-178 | loading the same files twice leaves exactly what one load leaves: rows never accumulate |
| Loader.LoadResult | load.py:116-187 | a load succeeds iff it raises nothing and none of its statements fails |
| Loader.LoadSent | load.py:116-187 | the statements sent are a prefix of the plan, and all of it when no statement fails |
| Loader.Warehouse.Execute | load.py:124 | the statement is recorded; it takes effect iff it can run and is not the failing one; only a commit changes the committed tables |
| Loader.Warehouse.Rollback | load.py:116 | leaving the connection without a commit restores the committed tables |
| Loader.Warehouse.Step | load.py:124 | one load statement either takes effect on the connection's tables or fails and rolls the connection back |
| Loader.Warehouse.Load | load.py:38-187 | the result and the statements sent are those of LoadResult and LoadSent; only a successful load changes the committed tables, to the replayed plan; nothing is left pending |
| Loader.Warehouse.LoadCleaned | load.py:116-178 | the connection part of the load ends as the plan predicts |
| Loader.Warehouse.WriteAndCommit | load.py:133-178 | the writes then the commit end as the plan predicts |
| Loader.Warehouse.CommitLoad | load.py:178 | the commit makes the replayed plan durable, or fails and leaves the committed tables as before |
| Loader.Warehouse.Prepare | load.py:119-131 | both loops complete iff none of their ten statements fails; otherwise the connection has rolled back after the failing one and the load ends as the plan predicts |
| Loader.Warehouse.CreateTables | load.py:119-125 | the create loop completes iff none of its statements fails, and then every table exists |
| Loader.Warehouse.TruncateTables | load.py:128-131 | the truncate loop completes iff none of its statements fails; otherwise it stops at the failing one after a rollback |
| Loader.Warehouse.FinishedStays | load.py:133-175 | once a write stage has stopped, the later steps send nothing |
| Loader.Warehouse.Write | load.py:139 | one `to_sql` write takes effect, or raises and rolls back |
| Loader.Warehouse.WriteAll | load.py:133-175 | the five writes end as the write stage predicts |
| Pipeline.StagesDone | main.py:20-70 | two log entries per completed stage: started, then done, in stage order |
| Pipeline.StagesDoneAppend | main.py:20-70 | the log of stages `a` then `b` is the log of `a` followed by the log of `b` |
| Pipeline.LoadAndAggregate | main.py:48-58 | the load, then the procedure call, end as LoadedAndAggregated states |
| Pipeline.Aggregate | main.py:52-58 | a failed load is re-raised without calling the procedure; otherwise the procedure is called once and its failure re-raised |
| Pipeline.RunPipeline | main.py:13-74 | a missing raw file or a transform error stops the run before the warehouse is touched, and so do missing intermediate files; a load failure changes no committed table; the procedure runs only after a successful load; `Completed` is logged iff every stage succeeded |
| EndToEnd.FactRowPerCleanedRecord | load.py:159-172 | after a successful transform with at least one record, the fact table exists with one row per cleaned record, in order: FactID = i + 1, DateID = FiscalYear * 10000 (the key of transform.py:13), other fact cells from the record; the order is the merge order of pandas 2.2 and later (see `Frames.MergeRows` under "Left out") |
| EndToEnd.FactsInAnyMergeOrder | load.py:159-172 | the same up to the merge's row order: whatever order `p` the merge returns its rows in, fact row j has FactID = j + 1 and is the fact of record p[j], so records and fact rows match one to one |
| EndToEnd.FactTableInAnyOrder | load.py:159-172 | the same for any record set and a date dimension with exactly its years, each once |
| EndToEnd.FactTable | load.py:159-172 | the same for any record set and a date dimension with exactly its years, each once, keyed by year * 10000 |
| EndToEnd.JoinConditions | load.py:159 | for such a pair the merge succeeds, the date years are distinct, and every cleaned row has a partner |
| EndToEnd.EmptyRunStopsAtDimDate | load.py:153 | a successful transform without records writes an empty date dimension; the load then writes the three projections, raises EmptyData reading dim_date back, and never commits |

## Left out

- `extract.py` is not part of this model. It is network I/O and swallows its own errors, so the extract stage is a step that always completes.
- `pipeline_log.py` (logging configuration) is not modelled. The log is an abstract sequence of stage events, not message text.
- The Snowflake engine, its connection string and the Dask client are foreign calls. The warehouse is an abstract transactional store.
- CSV reading and writing are not modelled; files are parameters and results. The load reads fixed paths and ignores its path arguments; in the model the two files are simply the two inputs of `Load`.
- Facts.ReadCsv: reading a file back yields exactly the frame that was written. pandas' re-inference of column types from text is not modelled.
- Whether intermediate files exist, and the contents of the raw file, are inputs of `RunPipeline` (an `Environment`).
- The raw read declares integer dtypes, and such a read raises for a missing integer cell. The model lets integer cells be missing (as the fill dictionary expects) and does not model that exception.
- `dd.to_datetime(..., errors='coerce')` is an abstract function from text to an optional date.
- Cleaning.Mean: means are exact over the reals; floating-point rounding is not modelled.
- Dask partitioning, lazy evaluation and the module-level call at import time are not modelled.
- Frames.MergeRows: the inner merge lists the rows of the left frame in order, each followed by its matches in right order. This is the order of pandas 2.2 and later. Earlier versions group the result by key, in order of first appearance: left years [2020, 2021, 2020] come out as 2020, 2020, 2021. The date range of `DimDate.NewYearsDay` is that of pandas before 2.0, so no single pandas version has both behaviours. The row order, and with it the claim that cleaned record i gets FactID i + 1, holds only in pandas 2.2 and later (`Frames.MergeRowsOneToOne`, `Facts.FactRowsOnePerCleanedRow`, `EndToEnd.FactRowPerCleanedRecord`, `EndToEnd.FactTable`). `EndToEnd.FactsInAnyMergeOrder` states what holds in any version: for any order of the merged rows, FactID is 1..N in row order and records and fact rows match one to one.
- The merge's frames have column sets that do not overlap. Column-name suffixes for overlapping names do not arise and are not modelled.
- Loader.Warehouse.Load: in the warehouse, CREATE, TRUNCATE and the DROP TABLE and CREATE TABLE that `to_sql(if_exists="replace")` issues are all part of the connection's transaction. So a failed load leaves the committed tables as they were (`Loader.Warehouse.Load`, `Loader.Warehouse.CommitLoad`, `Pipeline.RunPipeline`). A real Snowflake session commits each DDL statement implicitly, so a load that fails after some writes would leave its creates, truncates and replaced tables committed; that is not modelled.
- `to_sql(if_exists="replace")` replaces a table by the frame, dropping the declared DDL types. The model keeps the frame and does not model column types in the warehouse.
- Loader.Warehouse.Load: database failures are a single optional failing statement number; the kind of failure and retries are not modelled.
- The body of the stored procedure `PAYROLL_AGGREGATES` is not in the repository. It is a statement that changes no modelled table.
- Schema.CreateTableEntries: the DDL text is checked by reading its entries back. The warehouse runs the `CreateTable` statement on the table definition, not on the SQL text.
- Schema.CreateRoundTrip: SQL quoting is not modelled. A table name containing a double quote would make the text ambiguous; the five declared names contain none (`Schema.TableNameQuoteFree`).
- DimDate.NewYearsDay: the years 1678..2262 are the range of a nanosecond-resolution `pd.Timestamp`, the only resolution before pandas 2.0. Later pandas versions can represent some years outside it at a coarser resolution, and a year of fewer than four digits may be read by a different date parser; neither is modelled.
- Loader.Apply: a replayed `TRUNCATE` keeps the table's columns, and `to_sql(if_exists="replace")` substitutes the frame whole. Column types, permissions and the warehouse's own constraints are not modelled.

### Where the code differs from its documented design

- Deduplication runs on raw text, before date coercion. Rows that become equal once coerced both stay (`Cleaning.CoercionCanEqualizeDistinctRows`).
- `pd.Series.unique()` keeps the missing marker and `map` matches it, so a missing `PayBasis` gets an ID of its own before it is filled with "Unknown". A row genuinely labelled "Unknown" gets a different ID (`Transform.MissingAndUnknownLabels`). The fill's `PayBasisID` 0 is never used (`Cleaning.MappedRowsCarryTheirID`).
- A fiscal year whose January 1 falls outside the nanosecond range of `pd.Timestamp` makes `transform_data` raise in the model, after the cleaning and before any file is written (`DimDate.DimDateTable`, `Transform.TransformData`). Whether a given pandas version raises for such a year depends on its timestamp resolution (see `DimDate.NewYearsDay` under "Left out").
- A run with no records produces a date dimension without columns. The load then fails with `EmptyData` when it reads `dim_date` back, after the three dimension writes and before any commit (`EndToEnd.EmptyRunStopsAtDimDate`).
