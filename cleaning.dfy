/** The cleaning steps of `transform_data` (transform.py), each a whole-frame operation:
    deduplication, date coercion, the column rename, the PayBasis mapping, the fill values
    and the fill, and the list of distinct fiscal years. */
module Cleaning {
  import opened Wrappers
  import opened Frames
  import opened Payroll

  // ----- drop_duplicates / unique -----

  ghost predicate NoDuplicates<T>(s: seq<T>) {
    forall i, j :: 0 <= i < j < |s| ==> s[i] != s[j]
  }

  /** `drop_duplicates()` / `unique()`: the distinct elements, each where it first occurs. */
  function DropDuplicates<T(==)>(s: seq<T>): (r: seq<T>)
    ensures NoDuplicates(r)
    ensures forall x :: x in r ==> x in s
    ensures forall x :: x in s ==> x in r
    ensures |r| <= |s|
  {
    if |s| == 0 then []
    else
      var prefix := DropDuplicates(s[..|s| - 1]);
      if s[|s| - 1] in prefix then prefix else prefix + [s[|s| - 1]]
  }

  /** The position where `x` first occurs in `s`. */
  function FirstIndex<T(==)>(s: seq<T>, x: T): (k: nat)
    requires x in s
    ensures k < |s| && s[k] == x && x !in s[..k]
  {
    if s[0] == x then 0 else 1 + FirstIndex(s[1..], x)
  }

  lemma {:induction false} FirstIndexPrefix<T>(s: seq<T>, n: nat, x: T)
    requires n <= |s| && x in s[..n]
    ensures FirstIndex(s, x) == FirstIndex(s[..n], x)
  {
    if s[0] != x {
      assert s[1..][..n - 1] == s[..n][1..];
      FirstIndexPrefix(s[1..], n - 1, x);
    }
  }

  /** A sequence without duplicates is left as it is. */
  lemma {:induction false} DropDuplicatesOfDistinct<T>(s: seq<T>)
    requires NoDuplicates(s)
    ensures DropDuplicates(s) == s
  {
    if |s| > 0 {
      var n := |s| - 1;
      assert NoDuplicates(s[..n]);
      DropDuplicatesOfDistinct(s[..n]);
      assert s[n] !in s[..n];
      assert s[..n] + [s[n]] == s;
    }
  }

  /** Dropping duplicates twice is dropping them once. */
  lemma DropDuplicatesIdempotent<T>(s: seq<T>)
    ensures DropDuplicates(DropDuplicates(s)) == DropDuplicates(s)
  {
    DropDuplicatesOfDistinct(DropDuplicates(s));
  }

  /** The output keeps the order of first occurrences. */
  lemma {:induction false} DropDuplicatesFirstSeen<T>(s: seq<T>, i: nat, j: nat)
    requires i < j < |DropDuplicates(s)|
    ensures FirstIndex(s, DropDuplicates(s)[i]) < FirstIndex(s, DropDuplicates(s)[j])
  {
    var n := |s| - 1;
    var prefix := DropDuplicates(s[..n]);
    var r := DropDuplicates(s);
    assert r[i] in s && r[j] in s;
    if j < |prefix| {
      DropDuplicatesFirstSeen(s[..n], i, j);
      FirstIndexPrefix(s, n, prefix[i]);
      FirstIndexPrefix(s, n, prefix[j]);
    } else {
      assert r[j] == s[n] && s[n] !in s[..n];
      assert r[i] == prefix[i] && prefix[i] in s[..n];
      FirstIndexPrefix(s, n, prefix[i]);
      assert FirstIndex(s, s[n]) == n;
    }
  }

  // ----- dd.to_datetime(..., errors='coerce') -----

  /** The record with its start date blanked: the part of a row that coercion leaves alone. */
  function WithoutStartDate<D>(p: Payroll<D>): Payroll<()> {
    Payroll(p.fiscalYear, p.payrollNumber, p.agencyID, p.agencyName, p.employeeID, p.lastName,
            p.firstName, None, p.workLocationBorough, p.titleCode, p.titleDescription,
            p.leaveStatusasofJune30, p.baseSalary, p.payBasis, p.regularHours, p.regularGrossPaid,
            p.otHours, p.totalOTPaid, p.totalOtherPay)
  }

  /** `c` is `p` coerced: every column other than `AgencyStartDate` is unchanged, and the
      date is NaT exactly when the text is missing or does not parse, else the parsed date. */
  ghost predicate CoercedFrom(c: Payroll<Timestamp>, p: RawRecord, parse: string -> Option<Timestamp>) {
    && WithoutStartDate(c) == WithoutStartDate(p)
    && (c.agencyStartDate.Some? <==> p.agencyStartDate.Some? && parse(p.agencyStartDate.value).Some?)
    && (c.agencyStartDate.Some? ==> c.agencyStartDate == parse(p.agencyStartDate.value))
  }

  /** Coerce `AgencyStartDate`: text that `parse` accepts becomes its timestamp, other text
      and missing cells become NaT. */
  function Coerce(p: RawRecord, parse: string -> Option<Timestamp>): (c: Payroll<Timestamp>)
    ensures CoercedFrom(c, p, parse)
  {
    Payroll(p.fiscalYear, p.payrollNumber, p.agencyID, p.agencyName, p.employeeID, p.lastName,
            p.firstName,
            match p.agencyStartDate { case Some(s) => parse(s) case None => None },
            p.workLocationBorough, p.titleCode, p.titleDescription, p.leaveStatusasofJune30,
            p.baseSalary, p.payBasis, p.regularHours, p.regularGrossPaid, p.otHours,
            p.totalOTPaid, p.totalOtherPay)
  }

  /** The relation pins the coerced row down: `Coerce` is the only row coerced from `p`. */
  lemma CoercedFromUnique(c: Payroll<Timestamp>, p: RawRecord, parse: string -> Option<Timestamp>)
    requires CoercedFrom(c, p, parse)
    ensures c == Coerce(p, parse)
  {
    var d := Coerce(p, parse);
    assert WithoutStartDate(c) == WithoutStartDate(d);
    assert c.agencyStartDate == d.agencyStartDate;
  }

  /** `dd.to_datetime(df['AgencyStartDate'], errors='coerce')` over the whole set. */
  function CoerceAll(rows: seq<RawRecord>, parse: string -> Option<Timestamp>): (r: seq<Payroll<Timestamp>>)
    ensures |r| == |rows| && forall i :: 0 <= i < |rows| ==> CoercedFrom(r[i], rows[i], parse)
  {
    seq(|rows|, i requires 0 <= i < |rows| => Coerce(rows[i], parse))
  }

  /** Deduplication compares raw text, before coercion: two rows that differ only in
      start-date text that fails to parse (or is missing) both survive it, and are equal
      once coerced. */
  lemma CoercionCanEqualizeDistinctRows(a: RawRecord, b: RawRecord, parse: string -> Option<Timestamp>)
    requires WithoutStartDate(a) == WithoutStartDate(b) && a.agencyStartDate != b.agencyStartDate
    requires a.agencyStartDate.None? || parse(a.agencyStartDate.value).None?
    requires b.agencyStartDate.None? || parse(b.agencyStartDate.value).None?
    ensures a != b && DropDuplicates([a, b]) == [a, b]
    ensures Coerce(a, parse) == Coerce(b, parse)
  {
    assert DropDuplicates([a, b]) == [a, b] by {
      assert [a, b][..1] == [a];
      assert DropDuplicates([a]) == [a] by { assert [a][..0] == []; }
    }
    var ca, cb := Coerce(a, parse), Coerce(b, parse);
    assert ca.agencyStartDate == None == cb.agencyStartDate;
    assert WithoutStartDate(ca) == WithoutStartDate(cb);
  }

  // ----- rename(columns={'AgencyCode': 'AgencyID'}) -----

  /** The header after the rename: `AgencyCode` becomes `AgencyID`; nothing else changes. */
  function RenameColumns(header: seq<string>): (r: seq<string>)
    ensures |r| == |header|
    ensures "AgencyCode" !in r
    ensures forall i :: 0 <= i < |header| && header[i] != "AgencyCode" ==> r[i] == header[i]
    ensures "AgencyID" in r <==> "AgencyID" in header || "AgencyCode" in header
  {
    var r := seq(|header|, i requires 0 <= i < |header| => if header[i] == "AgencyCode" then "AgencyID" else header[i]);
    assert forall i :: 0 <= i < |header| && header[i] == "AgencyCode" ==> r[i] == "AgencyID";
    r
  }

  /** The names of the record's columns, in `Payroll`'s field order. */
  const RecordNames: seq<string> := [
    "FiscalYear", "PayrollNumber", "AgencyID", "AgencyName", "EmployeeID", "LastName",
    "FirstName", "AgencyStartDate", "WorkLocationBorough", "TitleCode", "TitleDescription",
    "LeaveStatusasofJune30", "BaseSalary", "PayBasis", "RegularHours", "RegularGrossPaid",
    "OTHours", "TotalOTPaid", "TotalOtherPay"]

  /** A raw header in the record's column order, the agency column named `agency`. */
  function RawHeader(agency: string): (h: seq<string>)
    ensures |h| == |RecordNames| && h[2] == agency
  {
    RecordNames[2 := agency]
  }

  /** Whichever of its two names the raw file gives the agency column, the renamed header
      is the record's column list: `Payroll.agencyID` stands for either. */
  lemma RenamedHeader(agency: string)
    requires agency == "AgencyCode" || agency == "AgencyID"
    ensures RenameColumns(RawHeader(agency)) == RecordNames
  {
    var h := RawHeader(agency);
    var r := RenameColumns(h);
    forall i | 0 <= i < |RecordNames| ensures r[i] == RecordNames[i] {
      if i != 2 {
        assert h[i] == RecordNames[i];
        assert RecordNames[i] != "AgencyCode" by { NotAgencyCode(i); }
      }
    }
  }

  lemma NotAgencyCode(i: nat)
    requires i < |RecordNames| && i != 2
    ensures RecordNames[i] != "AgencyCode"
  {
    assert RecordNames[3][6] == 'N' && "AgencyCode"[6] == 'C';
  }

  // ----- the PayBasis mapping -----

  /** The `PayBasis` column, missing cells included. */
  function PayBasisColumn(rows: seq<Payroll<Timestamp>>): (col: seq<Option<string>>)
    ensures |col| == |rows| && forall i :: 0 <= i < |rows| ==> col[i] == rows[i].payBasis
  {
    seq(|rows|, i requires 0 <= i < |rows| => rows[i].payBasis)
  }

  /** `{pb: i + 1 for i, pb in enumerate(u)}`, later keys overriding earlier ones. */
  function Enumerate<K>(u: seq<K>): (m: map<K, int>)
    ensures m.Keys == set x | x in u
    ensures forall v :: v in m.Values ==> 1 <= v <= |u|
  {
    if |u| == 0 then map[]
    else
      var prev := Enumerate(u[..|u| - 1]);
      var m := prev[u[|u| - 1] := |u|];
      UpdateBounded(prev, m, u[|u| - 1], |u|);
      m
  }

  lemma UpdateBounded<K>(m: map<K, int>, m': map<K, int>, k: K, hi: int)
    requires forall v :: v in m.Values ==> 1 <= v < hi
    requires 1 <= hi && m' == m[k := hi]
    ensures forall v :: v in m'.Values ==> 1 <= v <= hi
  {
    forall v | v in m'.Values ensures 1 <= v <= hi {
      var x :| x in m' && m'[x] == v;
      if x != k {
        assert m[x] in m.Values;
      }
    }
  }

  /** On distinct keys the dictionary sends the k-th key to k + 1 and nothing else: the IDs
      are dense, 1..|u|, and injective. */
  lemma {:induction false} EnumerateDistinct<K>(u: seq<K>)
    requires NoDuplicates(u)
    ensures forall i :: 0 <= i < |u| ==> Enumerate(u)[u[i]] == i + 1
  {
    if |u| > 0 {
      var n := |u| - 1;
      assert NoDuplicates(u[..n]);
      EnumerateDistinct(u[..n]);
      var m := Enumerate(u);
      forall i | 0 <= i < |u| ensures m[u[i]] == i + 1 {
        if i < n {
          assert u[..n][i] == u[i];
        }
      }
    }
  }

  /** The mapping built from the distinct `PayBasis` values of the coerced rows, before any
      fill, missing marker included. */
  function PayBasisMapping(rows: seq<Payroll<Timestamp>>): (m: map<Option<string>, int>)
    ensures m.Keys == (set i | 0 <= i < |rows| :: rows[i].payBasis)
    ensures forall v :: v in m.Values ==> 1 <= v <= |rows|
  {
    var col := PayBasisColumn(rows);
    var m := Enumerate(DropDuplicates(col));
    forall x | x in m ensures x in (set i | 0 <= i < |rows| :: rows[i].payBasis) {
      var i :| 0 <= i < |col| && col[i] == x;
    }
    m
  }

  /** `df['PayBasisID'] = df['PayBasis'].map(mapping)`: a label outside the mapping becomes NaN. */
  function AssignPayBasisIDs(rows: seq<Payroll<Timestamp>>, m: map<Option<string>, int>): (r: seq<Record>)
    ensures |r| == |rows|
    ensures forall i :: 0 <= i < |rows| ==>
      r[i].row == rows[i] && r[i].payBasisID == (if rows[i].payBasis in m then Some(m[rows[i].payBasis]) else None)
  {
    seq(|rows|, i requires 0 <= i < |rows| =>
      Record(rows[i], if rows[i].payBasis in m then Some(m[rows[i].payBasis]) else None))
  }

  /** The mapping numbers the distinct labels (the missing one counting as a label) 1..k in
      the order they are first seen, so every row gets an ID, equal IDs mean equal labels,
      and no label is left unmapped. */
  lemma PayBasisIDsDense(rows: seq<Payroll<Timestamp>>)
    ensures var u := DropDuplicates(PayBasisColumn(rows));
      var m := PayBasisMapping(rows);
      && (forall v :: v in m.Values ==> 1 <= v <= |u|)
      && (forall k :: 0 <= k < |u| ==> m[u[k]] == k + 1)
      && (forall a, b :: a in m && b in m && m[a] == m[b] ==> a == b)
  {
    var u := DropDuplicates(PayBasisColumn(rows));
    EnumerateDistinct(u);
    var m := PayBasisMapping(rows);
    forall a, b | a in m && b in m && m[a] == m[b] ensures a == b {
      var i :| 0 <= i < |u| && u[i] == a;
      var j :| 0 <= j < |u| && u[j] == b;
    }
  }

  /** After the mapping every row carries the ID of its own (pre-fill) label. */
  lemma MappedRowsCarryTheirID(rows: seq<Payroll<Timestamp>>)
    ensures var r := AssignPayBasisIDs(rows, PayBasisMapping(rows));
      forall i :: 0 <= i < |rows| ==>
        rows[i].payBasis in PayBasisMapping(rows) &&
        r[i].payBasisID == Some(PayBasisMapping(rows)[rows[i].payBasis]) &&
        1 <= PayBasisMapping(rows)[rows[i].payBasis] <= |rows|
  {
    PayBasisIDsDense(rows);
    var m := PayBasisMapping(rows);
    forall i | 0 <= i < |rows| ensures 1 <= m[rows[i].payBasis] <= |rows| {
      assert m[rows[i].payBasis] in m.Values;
    }
  }

  // ----- column means -----

  /** The non-missing entries of a column, in order. */
  function Present(xs: seq<Option<real>>): (ps: seq<real>)
    ensures |ps| <= |xs|
  {
    if |xs| == 0 then []
    else Present(xs[..|xs| - 1]) + (match xs[|xs| - 1] { case Some(v) => [v] case None => [] })
  }

  function Sum(vs: seq<real>): real {
    if |vs| == 0 then 0.0 else Sum(vs[..|vs| - 1]) + vs[|vs| - 1]
  }

  /** A column has no present entry exactly when every entry is missing. */
  lemma {:induction false} PresentEmptyIff(xs: seq<Option<real>>)
    ensures |Present(xs)| == 0 <==> forall k :: 0 <= k < |xs| ==> xs[k].None?
  {
    if |xs| > 0 {
      var n := |xs| - 1;
      PresentEmptyIff(xs[..n]);
      assert forall k :: 0 <= k < n ==> xs[..n][k] == xs[k];
    }
  }

  /** `Series.mean()`: the mean of the non-missing values; NaN (`None`) exactly when every
      entry of the column is missing. */
  function Mean(xs: seq<Option<real>>): (m: Option<real>)
    ensures m.None? <==> forall k :: 0 <= k < |xs| ==> xs[k].None?
  {
    PresentEmptyIff(xs);
    MeanOf(Present(xs))
  }

  /** The mean of the present values themselves. */
  function MeanOf(ps: seq<real>): Option<real> {
    if |ps| == 0 then None else Some(Sum(ps) / (|ps| as real))
  }

  lemma {:induction false} PresentAppend(a: seq<Option<real>>, b: seq<Option<real>>)
    ensures Present(a + b) == Present(a) + Present(b)
  {
    if |b| == 0 {
      assert a + b == a;
    } else {
      var n := |b| - 1;
      PresentAppend(a, b[..n]);
      assert (a + b)[..|a + b| - 1] == a + b[..n];
    }
  }

  /** A missing cell, wherever it sits in the column, changes neither the mean nor whether
      there is one: NaN cells are skipped, not counted as zero. */
  lemma MeanIgnoresMissing(xs: seq<Option<real>>, ys: seq<Option<real>>)
    ensures Mean(xs + [None] + ys) == Mean(xs + ys)
  {
    var missing: seq<Option<real>> := [None];
    assert missing[..0] == [];
    PresentAppend(xs, missing);
    PresentAppend(xs + missing, ys);
    PresentAppend(xs, ys);
    assert Present(xs + [None] + ys) == Present(xs + ys);
  }

  /** Every entry of `Present(xs)` is a present entry of `xs`. */
  lemma {:induction false} PresentBounded(xs: seq<Option<real>>, lo: real, hi: real)
    requires forall k :: 0 <= k < |xs| && xs[k].Some? ==> lo <= xs[k].value <= hi
    ensures forall j :: 0 <= j < |Present(xs)| ==> lo <= Present(xs)[j] <= hi
  {
    if |xs| > 0 {
      var n := |xs| - 1;
      assert forall k :: 0 <= k < n ==> xs[..n][k] == xs[k];
      PresentBounded(xs[..n], lo, hi);
    }
  }

  lemma {:induction false} SumBounds(vs: seq<real>, lo: real, hi: real)
    requires forall j :: 0 <= j < |vs| ==> lo <= vs[j] <= hi
    ensures |vs| as real * lo <= Sum(vs) <= |vs| as real * hi
  {
    if |vs| > 0 {
      var n := |vs| - 1;
      assert forall j :: 0 <= j < n ==> vs[..n][j] == vs[j];
      SumBounds(vs[..n], lo, hi);
      AddOne(n as real, lo);
      AddOne(n as real, hi);
    }
  }

  lemma DivideBounds(s: real, p: real, lo: real, hi: real)
    requires p > 0.0 && p * lo <= s <= p * hi
    ensures lo <= s / p <= hi
  {
  }

  /** The mean lies within any bounds that every present entry respects: non-negative pay
      has a non-negative mean, and so a non-negative fill value. */
  lemma MeanWithinBounds(xs: seq<Option<real>>, lo: real, hi: real)
    requires forall k :: 0 <= k < |xs| && xs[k].Some? ==> lo <= xs[k].value <= hi
    requires Mean(xs).Some?
    ensures lo <= Mean(xs).value <= hi
  {
    var ps := Present(xs);
    PresentBounded(xs, lo, hi);
    SumBounds(ps, lo, hi);
    DivideBounds(Sum(ps), |ps| as real, lo, hi);
    assert Mean(xs) == MeanOf(ps);
  }

  /** The six means, computed from the mapped rows before anything is filled. */
  datatype FillValues = FillValues(
    baseSalary: Option<real>, regularHours: Option<real>, regularGrossPaid: Option<real>,
    otHours: Option<real>, totalOTPaid: Option<real>, totalOtherPay: Option<real>)

  /** The column selected by `get`. */
  function NumericColumn(rows: seq<Record>, get: Payroll<Timestamp> -> Option<real>): (col: seq<Option<real>>)
    ensures |col| == |rows| && forall i :: 0 <= i < |rows| ==> col[i] == get(rows[i].row)
  {
    seq(|rows|, i requires 0 <= i < |rows| => get(rows[i].row))
  }

  lemma NumericMeanNone(rows: seq<Record>, get: Payroll<Timestamp> -> Option<real>)
    ensures Mean(NumericColumn(rows, get)).None? <==> forall i :: 0 <= i < |rows| ==> get(rows[i].row).None?
  {
    var col := NumericColumn(rows, get);
    assert forall i :: 0 <= i < |rows| ==> col[i] == get(rows[i].row);
  }

  /** The six fill values, each the mean of its column's present entries. */
  function ComputeFillValues(rows: seq<Record>): FillValues {
    FillValues(
      Mean(NumericColumn(rows, (p: Payroll<Timestamp>) => p.baseSalary)),
      Mean(NumericColumn(rows, (p: Payroll<Timestamp>) => p.regularHours)),
      Mean(NumericColumn(rows, (p: Payroll<Timestamp>) => p.regularGrossPaid)),
      Mean(NumericColumn(rows, (p: Payroll<Timestamp>) => p.otHours)),
      Mean(NumericColumn(rows, (p: Payroll<Timestamp>) => p.totalOTPaid)),
      Mean(NumericColumn(rows, (p: Payroll<Timestamp>) => p.totalOtherPay)))
  }

  /** Each of the six fill values is NaN exactly when its column has no present entry. */
  lemma FillValueNaNIff(rows: seq<Record>)
    ensures var fv := ComputeFillValues(rows);
      && (fv.baseSalary.None? <==> forall i :: 0 <= i < |rows| ==> rows[i].row.baseSalary.None?)
      && (fv.regularHours.None? <==> forall i :: 0 <= i < |rows| ==> rows[i].row.regularHours.None?)
      && (fv.regularGrossPaid.None? <==> forall i :: 0 <= i < |rows| ==> rows[i].row.regularGrossPaid.None?)
      && (fv.otHours.None? <==> forall i :: 0 <= i < |rows| ==> rows[i].row.otHours.None?)
      && (fv.totalOTPaid.None? <==> forall i :: 0 <= i < |rows| ==> rows[i].row.totalOTPaid.None?)
      && (fv.totalOtherPay.None? <==> forall i :: 0 <= i < |rows| ==> rows[i].row.totalOtherPay.None?)
  {
    NumericMeanNone(rows, (p: Payroll<Timestamp>) => p.baseSalary);
    NumericMeanNone(rows, (p: Payroll<Timestamp>) => p.regularHours);
    NumericMeanNone(rows, (p: Payroll<Timestamp>) => p.regularGrossPaid);
    NumericMeanNone(rows, (p: Payroll<Timestamp>) => p.otHours);
    NumericMeanNone(rows, (p: Payroll<Timestamp>) => p.totalOTPaid);
    NumericMeanNone(rows, (p: Payroll<Timestamp>) => p.totalOtherPay);
  }

  // ----- fillna -----

  /** The dictionary passed to `fillna`, column by column; `None` for a column it does not
      name. A NaN mean fills with NaN. */
  function FillDict(fv: FillValues, c: Column): Option<Value> {
    match c
    case FiscalYear => Some(IntV(0))
    case PayrollNumber => Some(IntV(0))
    case AgencyID => Some(IntV(0))
    case AgencyName => Some(TextV("Unknown"))
    case EmployeeID => Some(IntV(0))
    case LastName => Some(TextV("Unknown"))
    case FirstName => Some(TextV("Unknown"))
    case AgencyStartDate => Some(TimeV(Timestamp(1900, 1, 1)))
    case WorkLocationBorough => Some(TextV("Unknown"))
    case TitleCode => Some(IntV(0))
    case TitleDescription => Some(TextV("Unknown"))
    case LeaveStatusasofJune30 => Some(TextV("Unknown"))
    case BaseSalary => Some(RealCell(fv.baseSalary))
    case PayBasis => Some(TextV("Unknown"))
    case RegularHours => Some(RealCell(fv.regularHours))
    case RegularGrossPaid => Some(RealCell(fv.regularGrossPaid))
    case OTHours => Some(RealCell(fv.otHours))
    case TotalOTPaid => Some(RealCell(fv.totalOTPaid))
    case TotalOtherPay => Some(RealCell(fv.totalOtherPay))
    case PayBasisID => Some(IntV(0))
    case _ => None
  }

  /** A present cell stays; a missing one takes the fill value (which may itself be NaN). */
  function FillCell<T>(o: Option<T>, v: Option<T>): Option<T> {
    if o.Some? then o else v
  }

  /** `f` is `r` with every missing cell of a cleaned column replaced by that column's fill
      value and every present cell left as it is. */
  ghost predicate FilledFrom(f: Record, r: Record, fv: FillValues) {
    forall c :: IsCleanedColumn(c) ==>
      FillDict(fv, c).Some? && Cell(f, c) == if Cell(r, c) == Null then FillDict(fv, c).value else Cell(r, c)
  }

  /** One record filled: each present cell kept, each missing one given its column's value
      from the fill dictionary. */
  function FillRecord(r: Record, fv: FillValues): Record {
    var p := r.row;
    Record(
      Payroll(
        FillCell(p.fiscalYear, Some(0)),
        FillCell(p.payrollNumber, Some(0)),
        FillCell(p.agencyID, Some(0)),
        FillCell(p.agencyName, Some("Unknown")),
        FillCell(p.employeeID, Some(0)),
        FillCell(p.lastName, Some("Unknown")),
        FillCell(p.firstName, Some("Unknown")),
        FillCell(p.agencyStartDate, Some(Timestamp(1900, 1, 1))),
        FillCell(p.workLocationBorough, Some("Unknown")),
        FillCell(p.titleCode, Some(0)),
        FillCell(p.titleDescription, Some("Unknown")),
        FillCell(p.leaveStatusasofJune30, Some("Unknown")),
        FillCell(p.baseSalary, fv.baseSalary),
        FillCell(p.payBasis, Some("Unknown")),
        FillCell(p.regularHours, fv.regularHours),
        FillCell(p.regularGrossPaid, fv.regularGrossPaid),
        FillCell(p.otHours, fv.otHours),
        FillCell(p.totalOTPaid, fv.totalOTPaid),
        FillCell(p.totalOtherPay, fv.totalOtherPay)),
      FillCell(r.payBasisID, Some(0)))
  }

  /** One column of one record: a present cell is kept, a missing one gets the column's
      fill value. */
  lemma FillCellOfColumn(r: Record, fv: FillValues, c: Column)
    requires IsCleanedColumn(c)
    ensures FillDict(fv, c).Some?
    ensures Cell(FillRecord(r, fv), c) == if Cell(r, c) == Null then FillDict(fv, c).value else Cell(r, c)
  {
  }

  /** The fill changes only missing cells: every filled record is its record with each
      missing cell of a cleaned column given that column's fill value. */
  lemma FillChangesOnlyMissingCells(rows: seq<Record>, fv: FillValues)
    ensures |Fill(rows, fv)| == |rows|
    ensures forall i :: 0 <= i < |rows| ==> FilledFrom(Fill(rows, fv)[i], rows[i], fv)
  {
    var r := Fill(rows, fv);
    forall i, c | 0 <= i < |rows| && IsCleanedColumn(c)
      ensures FillDict(fv, c).Some? &&
        Cell(r[i], c) == if Cell(rows[i], c) == Null then FillDict(fv, c).value else Cell(rows[i], c)
    {
      assert r[i] == FillRecord(rows[i], fv);
      FillCellOfColumn(rows[i], fv, c);
    }
  }

  /** `fillna({...})` over the whole record set, record by record. */
  function Fill(rows: seq<Record>, fv: FillValues): seq<Record> {
    seq(|rows|, i requires 0 <= i < |rows| => FillRecord(rows[i], fv))
  }

  /** After the fill a cell is missing only where its column's fill value is itself NaN,
      which happens only for a numeric column with no present value in the whole set. */
  lemma FillLeavesNoMissingCells(rows: seq<Record>)
    ensures var fv := ComputeFillValues(rows);
      forall i, c :: 0 <= i < |rows| && IsCleanedColumn(c) && Cell(Fill(rows, fv)[i], c) == Null ==>
        FillDict(fv, c) == Some(Null) && forall k :: 0 <= k < |rows| ==> Cell(rows[k], c) == Null
  {
    var fv := ComputeFillValues(rows);
    forall i, c | 0 <= i < |rows| && IsCleanedColumn(c) && Cell(Fill(rows, fv)[i], c) == Null
      ensures FillDict(fv, c) == Some(Null) && forall k :: 0 <= k < |rows| ==> Cell(rows[k], c) == Null
    {
      FillChangesOnlyMissingCells(rows, fv);
      assert FilledFrom(Fill(rows, fv)[i], rows[i], fv);
      NaNFillValue(rows, c);
    }
  }

  /** A fill value is NaN only for a numeric column missing in every record. */
  lemma NaNFillValue(rows: seq<Record>, c: Column)
    requires FillDict(ComputeFillValues(rows), c) == Some(Null)
    ensures forall k :: 0 <= k < |rows| ==> Cell(rows[k], c) == Null
  {
    NaNFillColumns(ComputeFillValues(rows), c);
    FillValueNaNIff(rows);
  }

  /** The fill dictionary holds NaN only for a numeric column whose mean is NaN. */
  lemma NaNFillColumns(fv: FillValues, c: Column)
    requires FillDict(fv, c) == Some(Null)
    ensures || (c == BaseSalary && fv.baseSalary.None?)
            || (c == RegularHours && fv.regularHours.None?)
            || (c == RegularGrossPaid && fv.regularGrossPaid.None?)
            || (c == OTHours && fv.otHours.None?)
            || (c == TotalOTPaid && fv.totalOTPaid.None?)
            || (c == TotalOtherPay && fv.totalOtherPay.None?)
  {
  }

  /** A column with every missing entry replaced by `m`. */
  function FillColumn(xs: seq<Option<real>>, m: Option<real>): (r: seq<Option<real>>)
    ensures |r| == |xs| && forall i :: 0 <= i < |xs| ==> r[i] == FillCell(xs[i], m)
  {
    seq(|xs|, i requires 0 <= i < |xs| => FillCell(xs[i], m))
  }

  /** The number of missing entries of a column. */
  function MissingCount(xs: seq<Option<real>>): nat {
    |xs| - |Present(xs)|
  }

  /** `k` copies of `mu`, added up. */
  function Repeat(k: nat, mu: real): real {
    if k == 0 then 0.0 else Repeat(k - 1, mu) + mu
  }

  lemma {:induction false} RepeatIsProduct(k: nat, mu: real)
    ensures Repeat(k, mu) == k as real * mu
  {
    if k > 0 {
      RepeatIsProduct(k - 1, mu);
      AddOne((k - 1) as real, mu);
    }
  }

  lemma {:induction false} FilledColumnRepeat(xs: seq<Option<real>>, mu: real)
    ensures |Present(FillColumn(xs, Some(mu)))| == |xs|
    ensures Sum(Present(FillColumn(xs, Some(mu)))) == Sum(Present(xs)) + Repeat(MissingCount(xs), mu)
  {
    if |xs| > 0 {
      FilledColumnRepeat(xs[..|xs| - 1], mu);
      FilledColumnStep(xs, mu);
    }
  }

  /** The inductive step of `FilledColumnRepeat`: from the column without its last entry to
      the whole column. */
  lemma FilledColumnStep(xs: seq<Option<real>>, mu: real)
    requires |xs| > 0
    requires var z := xs[..|xs| - 1];
      |Present(FillColumn(z, Some(mu)))| == |z| &&
      Sum(Present(FillColumn(z, Some(mu)))) == Sum(Present(z)) + Repeat(MissingCount(z), mu)
    ensures |Present(FillColumn(xs, Some(mu)))| == |xs|
    ensures Sum(Present(FillColumn(xs, Some(mu)))) == Sum(Present(xs)) + Repeat(MissingCount(xs), mu)
  {
    var n := |xs| - 1;
    var z := xs[..n];
    var last := FillCell(xs[n], Some(mu));
    var ys, prev := FillColumn(xs, Some(mu)), FillColumn(z, Some(mu));
    assert Present(ys) == Present(prev) + [last.value] by {
      FillColumnPrefix(xs, mu);
    }
    SumAppend(Present(prev), last.value);
    if xs[n].Some? {
      assert Present(xs) == Present(z) + [xs[n].value];
      SumAppend(Present(z), xs[n].value);
      assert MissingCount(xs) == MissingCount(z);
    } else {
      assert Present(xs) == Present(z);
      RepeatSucc(MissingCount(xs), MissingCount(z), mu);
    }
  }

  lemma FillColumnPrefix(xs: seq<Option<real>>, mu: real)
    requires |xs| > 0
    ensures FillColumn(xs, Some(mu))[..|xs| - 1] == FillColumn(xs[..|xs| - 1], Some(mu))
  {
  }

  lemma AddOne(k: real, mu: real)
    ensures (k + 1.0) * mu == k * mu + mu
  {
  }

  /** A mean is a quotient: `mu` is the mean of `ps` exactly when `ps` is not empty and
      `|ps|` copies of `mu` add up to its sum. */
  lemma MeanOfIff(ps: seq<real>, mu: real)
    ensures MeanOf(ps) == Some(mu) <==> |ps| > 0 && Sum(ps) == Repeat(|ps|, mu)
  {
    if |ps| > 0 {
      var t, n := Sum(ps), |ps| as real;
      assert MeanOf(ps) == Some(t / n);
      assert t / n == mu <==> t == n * mu by {
        QuotientIff(t, n, mu);
      }
      assert Repeat(|ps|, mu) == n * mu by {
        RepeatIsProduct(|ps|, mu);
      }
    }
  }

  lemma QuotientIff(s: real, p: real, mu: real)
    requires p > 0.0
    ensures s / p == mu <==> s == p * mu
  {
  }

  lemma RepeatSucc(j: nat, k: nat, mu: real)
    requires j == k + 1
    ensures Repeat(j, mu) == Repeat(k, mu) + mu
  {
  }

  lemma {:induction false} RepeatAdd(p: nat, m: nat, mu: real)
    ensures Repeat(p + m, mu) == Repeat(p, mu) + Repeat(m, mu)
  {
    if m > 0 {
      RepeatAdd(p, m - 1, mu);
    }
  }

  lemma SumAppend(vs: seq<real>, v: real)
    ensures Sum(vs + [v]) == Sum(vs) + v
  {
    assert (vs + [v])[..|vs|] == vs;
  }

  /** Filling a column with its own mean leaves the mean as it was: the mean is taken over
      the present values only, so imputed cells do not bias it. */
  lemma MeanAfterFill(xs: seq<Option<real>>)
    ensures Mean(FillColumn(xs, Mean(xs))) == Mean(xs)
  {
    match Mean(xs)
    case None =>
      assert FillColumn(xs, None) == xs;
    case Some(mu) =>
      MeanOfFilled(xs, mu);
  }

  lemma MeanOfFilled(xs: seq<Option<real>>, mu: real)
    requires Mean(xs) == Some(mu)
    ensures Mean(FillColumn(xs, Some(mu))) == Some(mu)
  {
    var filled := FillColumn(xs, Some(mu));
    assert Mean(xs) == MeanOf(Present(xs));
    MeanOfIff(Present(xs), mu);
    FilledSumIsProduct(xs, mu);
    MeanOfIff(Present(filled), mu);
    assert Mean(filled) == MeanOf(Present(filled));
  }

  /** If the present values add up to as many copies of `mu` as there are of them, so do
      those of the column filled with `mu`. */
  lemma FilledSumIsProduct(xs: seq<Option<real>>, mu: real)
    requires |Present(xs)| > 0 && Sum(Present(xs)) == Repeat(|Present(xs)|, mu)
    ensures var qs := Present(FillColumn(xs, Some(mu)));
      |qs| > 0 && Sum(qs) == Repeat(|qs|, mu)
  {
    var qs := Present(FillColumn(xs, Some(mu)));
    FilledColumnRepeat(xs, mu);
    assert |qs| == |Present(xs)| + MissingCount(xs);
    RepeatAdd(|Present(xs)|, MissingCount(xs), mu);
  }

  /** Filling twice with the same values is filling once. */
  lemma FillIdempotent(rows: seq<Record>, fv: FillValues)
    ensures Fill(Fill(rows, fv), fv) == Fill(rows, fv)
  {
  }

  /** Recomputing the fill values from the filled set gives the same values: a second
      cleaning pass would impute nothing new. */
  lemma FillValuesFixedPoint(rows: seq<Record>)
    ensures ComputeFillValues(Fill(rows, ComputeFillValues(rows))) == ComputeFillValues(rows)
  {
    var fv := ComputeFillValues(rows);
    FilledColumnMean(rows, fv, (p: Payroll<Timestamp>) => p.baseSalary, fv.baseSalary);
    FilledColumnMean(rows, fv, (p: Payroll<Timestamp>) => p.regularHours, fv.regularHours);
    FilledColumnMean(rows, fv, (p: Payroll<Timestamp>) => p.regularGrossPaid, fv.regularGrossPaid);
    FilledColumnMean(rows, fv, (p: Payroll<Timestamp>) => p.otHours, fv.otHours);
    FilledColumnMean(rows, fv, (p: Payroll<Timestamp>) => p.totalOTPaid, fv.totalOTPaid);
    FilledColumnMean(rows, fv, (p: Payroll<Timestamp>) => p.totalOtherPay, fv.totalOtherPay);
  }

  /** A numeric column that `FillRecord` fills with `v`, where `v` is that column's mean,
      keeps its mean in the filled set. */
  lemma FilledColumnMean(rows: seq<Record>, fv: FillValues, get: Payroll<Timestamp> -> Option<real>, v: Option<real>)
    requires v == Mean(NumericColumn(rows, get))
    requires forall r :: get(FillRecord(r, fv).row) == FillCell(get(r.row), v)
    ensures Mean(NumericColumn(Fill(rows, fv), get)) == v
  {
    var c := NumericColumn(rows, get);
    FilledColumnIs(rows, fv, get, v);
    MeanAfterFill(c);
  }

  lemma FilledColumnIs(rows: seq<Record>, fv: FillValues, get: Payroll<Timestamp> -> Option<real>, v: Option<real>)
    requires forall r :: get(FillRecord(r, fv).row) == FillCell(get(r.row), v)
    ensures NumericColumn(Fill(rows, fv), get) == FillColumn(NumericColumn(rows, get), v)
  {
    var filled := Fill(rows, fv);
    assert forall i :: 0 <= i < |rows| ==> filled[i] == FillRecord(rows[i], fv);
  }

  // ----- the distinct fiscal years -----

  /** `df['FiscalYear'].drop_duplicates().tolist()` on the filled set, where every
      `FiscalYear` cell is present. */
  function FiscalYears(rows: seq<Record>): (years: seq<int>)
    requires forall i :: 0 <= i < |rows| ==> rows[i].row.fiscalYear.Some?
    ensures NoDuplicates(years)
    ensures forall y :: y in years <==> exists i :: 0 <= i < |rows| && rows[i].row.fiscalYear == Some(y)
  {
    var col := seq(|rows|, i requires 0 <= i < |rows| => rows[i].row.fiscalYear.value);
    var years := DropDuplicates(col);
    forall y ensures y in years <==> exists i :: 0 <= i < |rows| && rows[i].row.fiscalYear == Some(y) {
      if y in years {
        var i :| 0 <= i < |col| && col[i] == y;
        assert rows[i].row.fiscalYear == Some(y);
      }
      if exists i :: 0 <= i < |rows| && rows[i].row.fiscalYear == Some(y) {
        var i :| 0 <= i < |rows| && rows[i].row.fiscalYear == Some(y);
        assert col[i] == y;
      }
    }
    years
  }

  /** The fill makes every `FiscalYear` present. */
  lemma FilledYearsPresent(rows: seq<Record>, fv: FillValues)
    ensures forall i :: 0 <= i < |rows| ==> Fill(rows, fv)[i].row.fiscalYear.Some?
  {
  }
}
