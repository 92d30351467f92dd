/** Tabular values shared by the transform and the load: cells, column names and
    data frames with the handful of pandas operations load.py applies to them. */
module Frames {
  import opened Wrappers

  /** A `pd.Timestamp` at day granularity. */
  datatype Timestamp = Timestamp(year: int, month: int, day: int)

  /** One cell; `Null` is pandas' NaN / NaT. */
  datatype Value = IntV(i: int) | RealV(r: real) | TextV(s: string) | TimeV(t: Timestamp) | Null

  /** Every column name that occurs in the cleaned file, the date dimension or the fact table. */
  datatype Column =
    | FiscalYear | PayrollNumber | AgencyID | AgencyName | EmployeeID | LastName | FirstName
    | AgencyStartDate | WorkLocationBorough | TitleCode | TitleDescription | LeaveStatusasofJune30
    | BaseSalary | PayBasis | RegularHours | RegularGrossPaid | OTHours | TotalOTPaid | TotalOtherPay
    | PayBasisID
    | DateID | Date | Year | Month | Day | Quarter
    | FactID

  /** The column's name as it is spelled in the files and in the warehouse. */
  function Name(c: Column): string {
    match c
    case FiscalYear => "FiscalYear"
    case PayrollNumber => "PayrollNumber"
    case AgencyID => "AgencyID"
    case AgencyName => "AgencyName"
    case EmployeeID => "EmployeeID"
    case LastName => "LastName"
    case FirstName => "FirstName"
    case AgencyStartDate => "AgencyStartDate"
    case WorkLocationBorough => "WorkLocationBorough"
    case TitleCode => "TitleCode"
    case TitleDescription => "TitleDescription"
    case LeaveStatusasofJune30 => "LeaveStatusasofJune30"
    case BaseSalary => "BaseSalary"
    case PayBasis => "PayBasis"
    case RegularHours => "RegularHours"
    case RegularGrossPaid => "RegularGrossPaid"
    case OTHours => "OTHours"
    case TotalOTPaid => "TotalOTPaid"
    case TotalOtherPay => "TotalOtherPay"
    case PayBasisID => "PayBasisID"
    case DateID => "DateID"
    case Date => "Date"
    case Year => "Year"
    case Month => "Month"
    case Day => "Day"
    case Quarter => "Quarter"
    case FactID => "FactID"
  }

  type Row = map<Column, Value>

  /** A data frame: its column order and its rows, each row keyed by column. */
  datatype Frame = Frame(columns: seq<Column>, rows: seq<Row>)

  datatype FrameError = KeyError(column: Column)

  /** `row[c]`, reading a column the row lacks as NaN. */
  function At(row: Row, c: Column): Value {
    if c in row then row[c] else Null
  }

  /** A column of `wanted` that is not among `have`, the first one in `wanted`'s order.
      pandas' `KeyError` lists every missing column; the model reports one of them. */
  function FirstMissing(wanted: seq<Column>, have: seq<Column>): (m: Option<Column>)
    ensures m.None? <==> forall c :: c in wanted ==> c in have
    ensures m.Some? ==> m.value in wanted && m.value !in have
  {
    if |wanted| == 0 then None
    else if wanted[0] !in have then Some(wanted[0])
    else FirstMissing(wanted[1..], have)
  }

  /** `df[cols]`: keep the listed columns, in the listed order, of every row. */
  function Select(f: Frame, cols: seq<Column>): (r: Result<Frame, FrameError>)
    ensures r.Ok? <==> forall c :: c in cols ==> c in f.columns
    ensures r.Err? ==> r.error.column in cols && r.error.column !in f.columns
    ensures r.Ok? ==> r.value.columns == cols && |r.value.rows| == |f.rows|
    ensures r.Ok? ==> forall i :: 0 <= i < |f.rows| ==>
      r.value.rows[i].Keys == (set c | c in cols) &&
      forall c :: c in cols ==> r.value.rows[i][c] == At(f.rows[i], c)
  {
    match FirstMissing(cols, f.columns)
    case Some(c) => Err(KeyError(c))
    case None =>
      Ok(Frame(cols, seq(|f.rows|, i requires 0 <= i < |f.rows| => map c | c in cols :: At(f.rows[i], c))))
  }

  /** The rows of `right` whose `rk` cell equals `l`'s `lk` cell, each joined to `l`,
      in `right`'s order. Equal keys match even when both are NaN, as in pandas. */
  function Matches(l: Row, lk: Column, rs: seq<Row>, rk: Column): seq<Row> {
    if |rs| == 0 then []
    else Matches(l, lk, rs[..|rs| - 1], rk) + (if At(l, lk) == At(rs[|rs| - 1], rk) then [l + rs[|rs| - 1]] else [])
  }

  /** The rows of an inner merge, left row by left row. */
  function MergeRows(ls: seq<Row>, lk: Column, rs: seq<Row>, rk: Column): seq<Row> {
    if |ls| == 0 then []
    else MergeRows(ls[..|ls| - 1], lk, rs, rk) + Matches(ls[|ls| - 1], lk, rs, rk)
  }

  /** `p` lists every position below `n` exactly once: an order in which a merge may
      return the `n` rows that `MergeRows` lists left row by left row. */
  predicate IsReordering(p: seq<nat>, n: nat) {
    && |p| == n
    && (forall j :: 0 <= j < n ==> p[j] < n)
    && (forall a, b :: 0 <= a < b < n ==> p[a] != p[b])
    && (forall i: nat :: i < n ==> i in p)
  }

  /** The frame `f` with its rows taken in the order `p`. */
  function Reordered(f: Frame, p: seq<nat>): (r: Frame)
    requires forall j :: 0 <= j < |p| ==> p[j] < |f.rows|
    ensures r.columns == f.columns && |r.rows| == |p|
    ensures forall j :: 0 <= j < |p| ==> r.rows[j] == f.rows[p[j]]
  {
    Frame(f.columns, seq(|p|, j requires 0 <= j < |p| => f.rows[p[j]]))
  }

  /** `left.merge(right, left_on=lk, right_on=rk, how="inner")`. */
  function Merge(left: Frame, lk: Column, right: Frame, rk: Column): (r: Result<Frame, FrameError>)
    ensures r.Ok? <==> lk in left.columns && rk in right.columns
  {
    if lk !in left.columns then Err(KeyError(lk))
    else if rk !in right.columns then Err(KeyError(rk))
    else Ok(Frame(left.columns + right.columns, MergeRows(left.rows, lk, right.rows, rk)))
  }

  /** `df[c] = range(1, len(df) + 1)`: number the rows from 1 in a column `c`, appended
      unless the frame already has it. The existing columns keep their order, and every
      other cell of every row is kept. */
  function WithRowNumbers(f: Frame, c: Column): (r: Frame)
    ensures |r.rows| == |f.rows|
    ensures f.columns <= r.columns && |r.columns| <= |f.columns| + 1
    ensures forall d :: d in r.columns <==> d in f.columns || d == c
    ensures forall i :: 0 <= i < |r.rows| ==> c in r.rows[i] && r.rows[i][c] == IntV(i + 1)
    ensures forall i, d :: 0 <= i < |r.rows| && d != c ==>
      (d in r.rows[i] <==> d in f.rows[i]) && At(r.rows[i], d) == At(f.rows[i], d)
  {
    Frame(if c in f.columns then f.columns else f.columns + [c],
          seq(|f.rows|, i requires 0 <= i < |f.rows| => f.rows[i][c := IntV(i + 1)]))
  }

  /** The numbers in column `c` are exactly 1..n, each on one row: no gap, no repeat. */
  lemma RowNumbersOneToN(f: Frame, c: Column)
    ensures var r := WithRowNumbers(f, c);
      && (set i | 0 <= i < |r.rows| :: r.rows[i][c]) == (set k | 1 <= k <= |f.rows| :: IntV(k))
      && forall i, j :: 0 <= i < j < |r.rows| ==> r.rows[i][c] != r.rows[j][c]
  {
    var r := WithRowNumbers(f, c);
    forall k | 1 <= k <= |f.rows| ensures IntV(k) in (set i | 0 <= i < |r.rows| :: r.rows[i][c]) {
      assert r.rows[k - 1][c] == IntV(k);
    }
  }

  // ----- properties of the inner merge -----

  /** Every joined row is a left row extended by a right row with an equal key. */
  lemma {:induction false} MatchesSound(l: Row, lk: Column, rs: seq<Row>, rk: Column, k: nat)
    requires k < |Matches(l, lk, rs, rk)|
    ensures exists j :: 0 <= j < |rs| && At(l, lk) == At(rs[j], rk) && Matches(l, lk, rs, rk)[k] == l + rs[j]
  {
    var n := |rs| - 1;
    var prefix := Matches(l, lk, rs[..n], rk);
    if k < |prefix| {
      MatchesSound(l, lk, rs[..n], rk, k);
      var j :| 0 <= j < n && At(l, lk) == At(rs[..n][j], rk) && prefix[k] == l + rs[..n][j];
      assert rs[..n][j] == rs[j];
    } else {
      assert Matches(l, lk, rs, rk)[k] == l + rs[n];
    }
  }

  /** Every right row with an equal key is joined to the left row. */
  lemma {:induction false} MatchesComplete(l: Row, lk: Column, rs: seq<Row>, rk: Column, j: nat)
    requires j < |rs| && At(l, lk) == At(rs[j], rk)
    ensures l + rs[j] in Matches(l, lk, rs, rk)
  {
    var n := |rs| - 1;
    if j < n {
      MatchesComplete(l, lk, rs[..n], rk, j);
      assert rs[..n][j] == rs[j];
    }
  }

  /** With right keys pairwise distinct, a left row whose key occurs on the right at `j`
      yields exactly that one joined row. */
  lemma {:induction false} MatchesUnique(l: Row, lk: Column, rs: seq<Row>, rk: Column, j: nat)
    requires j < |rs| && At(l, lk) == At(rs[j], rk)
    requires forall a, b :: 0 <= a < b < |rs| ==> At(rs[a], rk) != At(rs[b], rk)
    ensures Matches(l, lk, rs, rk) == [l + rs[j]]
  {
    var n := |rs| - 1;
    if j < n {
      MatchesUnique(l, lk, rs[..n], rk, j);
      assert rs[..n][j] == rs[j];
      assert At(rs[j], rk) != At(rs[n], rk);
    } else {
      MatchesNone(l, lk, rs[..n], rk);
    }
  }

  lemma {:induction false} MatchesNone(l: Row, lk: Column, rs: seq<Row>, rk: Column)
    requires forall j :: 0 <= j < |rs| ==> At(l, lk) != At(rs[j], rk)
    ensures Matches(l, lk, rs, rk) == []
  {
    if |rs| > 0 {
      var n := |rs| - 1;
      assert forall j :: 0 <= j < n ==> rs[..n][j] == rs[j];
      MatchesNone(l, lk, rs[..n], rk);
    }
  }

  /** A row is in the merge exactly when it joins some left row to some right row with an
      equal key: rows without a partner are dropped and no pair is lost. */
  lemma MergeRowsMembership(ls: seq<Row>, lk: Column, rs: seq<Row>, rk: Column, x: Row)
    ensures x in MergeRows(ls, lk, rs, rk) <==>
      exists i, j :: 0 <= i < |ls| && 0 <= j < |rs| && At(ls[i], lk) == At(rs[j], rk) && x == ls[i] + rs[j]
  {
    if x in MergeRows(ls, lk, rs, rk) {
      MergeRowsSound(ls, lk, rs, rk, x);
    }
    if exists i, j :: 0 <= i < |ls| && 0 <= j < |rs| && At(ls[i], lk) == At(rs[j], rk) && x == ls[i] + rs[j] {
      var i, j :| 0 <= i < |ls| && 0 <= j < |rs| && At(ls[i], lk) == At(rs[j], rk) && x == ls[i] + rs[j];
      MergeRowsComplete(ls, lk, rs, rk, i, j);
    }
  }

  /** A merged row joins some left row to a right row with an equal key. */
  lemma {:induction false} MergeRowsSound(ls: seq<Row>, lk: Column, rs: seq<Row>, rk: Column, x: Row)
    requires x in MergeRows(ls, lk, rs, rk)
    ensures exists i, j :: 0 <= i < |ls| && 0 <= j < |rs| && At(ls[i], lk) == At(rs[j], rk) && x == ls[i] + rs[j]
  {
    var n := |ls| - 1;
    var m := Matches(ls[n], lk, rs, rk);
    if x in m {
      var k :| 0 <= k < |m| && m[k] == x;
      MatchesSound(ls[n], lk, rs, rk, k);
      var j :| 0 <= j < |rs| && At(ls[n], lk) == At(rs[j], rk) && m[k] == ls[n] + rs[j];
      assert At(ls[n], lk) == At(rs[j], rk) && x == ls[n] + rs[j];
    } else {
      MergeRowsSound(ls[..n], lk, rs, rk, x);
      var i, j :| 0 <= i < n && 0 <= j < |rs| && At(ls[..n][i], lk) == At(rs[j], rk) && x == ls[..n][i] + rs[j];
      assert ls[..n][i] == ls[i];
    }
  }

  /** Every left row is joined to every right row with an equal key. */
  lemma {:induction false} MergeRowsComplete(ls: seq<Row>, lk: Column, rs: seq<Row>, rk: Column, i: nat, j: nat)
    requires i < |ls| && j < |rs| && At(ls[i], lk) == At(rs[j], rk)
    ensures ls[i] + rs[j] in MergeRows(ls, lk, rs, rk)
  {
    var n := |ls| - 1;
    if i < n {
      assert ls[..n][i] == ls[i];
      MergeRowsComplete(ls[..n], lk, rs, rk, i, j);
    } else {
      MatchesComplete(ls[n], lk, rs, rk, j);
    }
  }

  /** Some row of `rs` has `l`'s key. */
  ghost predicate HasPartner(l: Row, lk: Column, rs: seq<Row>, rk: Column) {
    exists j :: 0 <= j < |rs| && At(l, lk) == At(rs[j], rk)
  }

  /** `x` is `l` joined to a row of `rs` with `l`'s key. */
  ghost predicate JoinedTo(x: Row, l: Row, lk: Column, rs: seq<Row>, rk: Column) {
    exists j :: 0 <= j < |rs| && At(l, lk) == At(rs[j], rk) && x == l + rs[j]
  }

  /** When the right keys are distinct and every left key occurs on the right, the merge
      keeps every left row once, in order, each joined to the right row with its key. */
  lemma {:induction false} MergeRowsOneToOne(ls: seq<Row>, lk: Column, rs: seq<Row>, rk: Column)
    requires forall a, b :: 0 <= a < b < |rs| ==> At(rs[a], rk) != At(rs[b], rk)
    requires forall i :: 0 <= i < |ls| ==> HasPartner(ls[i], lk, rs, rk)
    ensures |MergeRows(ls, lk, rs, rk)| == |ls|
    ensures forall i :: 0 <= i < |ls| ==> JoinedTo(MergeRows(ls, lk, rs, rk)[i], ls[i], lk, rs, rk)
  {
    if |ls| > 0 {
      var n := |ls| - 1;
      var front := ls[..n];
      PartnersOfPrefix(ls, lk, rs, rk, n);
      MergeRowsOneToOne(front, lk, rs, rk);
      assert HasPartner(ls[n], lk, rs, rk);
      var j :| 0 <= j < |rs| && At(ls[n], lk) == At(rs[j], rk);
      MatchesUnique(ls[n], lk, rs, rk, j);
      JoinedSnoc(MergeRows(front, lk, rs, rk), ls, lk, rs, rk, ls[n] + rs[j]);
    }
  }

  lemma PartnersOfPrefix(ls: seq<Row>, lk: Column, rs: seq<Row>, rk: Column, n: nat)
    requires n <= |ls| && forall i :: 0 <= i < |ls| ==> HasPartner(ls[i], lk, rs, rk)
    ensures forall i :: 0 <= i < n ==> HasPartner(ls[..n][i], lk, rs, rk)
  {
    assert forall i :: 0 <= i < n ==> ls[..n][i] == ls[i];
  }

  /** Appending the joined row of the last left row to the joined rows of the others. */
  lemma JoinedSnoc(prefix: seq<Row>, ls: seq<Row>, lk: Column, rs: seq<Row>, rk: Column, x: Row)
    requires |ls| > 0 && |prefix| == |ls| - 1
    requires forall i :: 0 <= i < |prefix| ==> JoinedTo(prefix[i], ls[..|prefix|][i], lk, rs, rk)
    requires JoinedTo(x, ls[|prefix|], lk, rs, rk)
    ensures forall i :: 0 <= i < |ls| ==> JoinedTo((prefix + [x])[i], ls[i], lk, rs, rk)
  {
    forall i | 0 <= i < |ls| ensures JoinedTo((prefix + [x])[i], ls[i], lk, rs, rk) {
      if i < |prefix| {
        assert ls[..|prefix|][i] == ls[i];
      }
    }
  }
}
