/** The five target tables of load.py and the SQL text built from them. */
module Schema {
  import opened Wrappers
  import opened Frames

  /** One `{"name": ..., "type": ...}` entry of a table's column list. */
  datatype ColumnDef = ColumnDef(column: Column, sqlType: string)

  datatype TableDef = TableDef(name: string, columns: seq<ColumnDef>)

  /** The `tables` list, in the order the create and truncate loops visit it. */
  const Tables: seq<TableDef> := [
    TableDef("Dim_Employee", [
      ColumnDef(EmployeeID, "INT"), ColumnDef(LastName, "VARCHAR(50)"),
      ColumnDef(FirstName, "VARCHAR(50)"), ColumnDef(AgencyStartDate, "DATE"),
      ColumnDef(TitleCode, "INT"), ColumnDef(TitleDescription, "TEXT"),
      ColumnDef(WorkLocationBorough, "VARCHAR(255)"), ColumnDef(LeaveStatusasofJune30, "VARCHAR(50)")]),
    TableDef("Dim_Agency", [ColumnDef(AgencyID, "INT"), ColumnDef(AgencyName, "VARCHAR(255)")]),
    TableDef("Dim_PayBasis", [ColumnDef(PayBasisID, "INT"), ColumnDef(PayBasis, "VARCHAR(255)")]),
    TableDef("Dim_Date", [
      ColumnDef(DateID, "INT"), ColumnDef(Date, "DATE"), ColumnDef(Year, "INT"),
      ColumnDef(Month, "INT"), ColumnDef(Day, "INT"), ColumnDef(Quarter, "INT")]),
    TableDef("FactPayroll", [
      ColumnDef(FactID, "INT"), ColumnDef(EmployeeID, "INT"), ColumnDef(AgencyID, "INT"),
      ColumnDef(DateID, "INT"), ColumnDef(PayBasisID, "INT"), ColumnDef(FiscalYear, "INT"),
      ColumnDef(PayrollNumber, "INT"), ColumnDef(BaseSalary, "FLOAT"), ColumnDef(RegularHours, "FLOAT"),
      ColumnDef(OTHours, "FLOAT"), ColumnDef(RegularGrossPaid, "FLOAT"), ColumnDef(TotalOTPaid, "FLOAT"),
      ColumnDef(TotalOtherPay, "FLOAT")])
  ]

  /** The column names of a table, in declared order. */
  function ColumnsOf(t: TableDef): (cs: seq<Column>)
    ensures |cs| == |t.columns| && forall i :: 0 <= i < |cs| ==> cs[i] == t.columns[i].column
  {
    seq(|t.columns|, i requires 0 <= i < |t.columns| => t.columns[i].column)
  }

  /** The table names, in list order. */
  function TableNames(ts: seq<TableDef>): (ns: seq<string>)
    ensures |ns| == |ts| && forall i :: 0 <= i < |ts| ==> ns[i] == ts[i].name
  {
    seq(|ts|, i requires 0 <= i < |ts| => ts[i].name)
  }

  /** The five names are distinct, so a write to one table never lands on another. */
  lemma TableNamesDistinct()
    ensures TableNames(Tables) == ["Dim_Employee", "Dim_Agency", "Dim_PayBasis", "Dim_Date", "FactPayroll"]
    ensures forall a, b :: 0 <= a < b < |Tables| ==> Tables[a].name != Tables[b].name
  {
    var ns := TableNames(Tables);
    assert ns[0] == "Dim_Employee" && ns[1] == "Dim_Agency" && ns[2] == "Dim_PayBasis";
    assert ns[3] == "Dim_Date" && ns[4] == "FactPayroll";
    assert "Dim_Employee"[4] == 'E' && "Dim_Agency"[4] == 'A' && "Dim_PayBasis"[4] == 'P';
    assert "Dim_Date"[4] == 'D' && "FactPayroll"[0] == 'F' && "Dim_Employee"[0] == 'D';
  }

  // ----- SQL text -----

  function Quote(s: string): string {
    "\"" + s + "\""
  }

  /** `f'"{col["name"]}" {col["type"]}'`. */
  function DefText(c: ColumnDef): string {
    Quote(Name(c.column)) + " " + c.sqlType
  }

  /** `sep.join(parts)`. */
  function Join(sep: string, parts: seq<string>): (s: string)
    ensures |parts| == 1 ==> s == parts[0]
  {
    if |parts| == 0 then ""
    else if |parts| == 1 then parts[0]
    else Join(sep, parts[..|parts| - 1]) + sep + parts[|parts| - 1]
  }

  /** `', '.join(...)` over a table's entries. */
  function ColumnDefs(t: TableDef): string {
    Join(", ", seq(|t.columns|, i requires 0 <= i < |t.columns| => DefText(t.columns[i])))
  }

  /** `f'CREATE TABLE IF NOT EXISTS "{table_name}" ({column_defs});'`. */
  function CreateTableSql(t: TableDef): string {
    "CREATE TABLE IF NOT EXISTS " + Quote(t.name) + " (" + ColumnDefs(t) + ");"
  }

  /** `f'TRUNCATE TABLE "{name}";'`. */
  function TruncateSql(name: string): string {
    "TRUNCATE TABLE " + Quote(name) + ";"
  }

  // ----- reading the statements back -----

  const CreatePrefix: string := "CREATE TABLE IF NOT EXISTS \""
  const TruncatePrefix: string := "TRUNCATE TABLE \""

  /** The position of the first `c` in `s`, if any. */
  function FirstIndex(s: string, c: char): (r: Option<nat>)
    ensures r.None? <==> c !in s
    ensures r.Some? ==> r.value < |s| && s[r.value] == c && c !in s[..r.value]
  {
    if |s| == 0 then None
    else if s[0] == c then Some(0)
    else match FirstIndex(s[1..], c)
      case None => None
      case Some(i) => assert s[..i + 1] == [s[0]] + s[1..][..i]; Some(i + 1)
  }

  /** The table name of a `TRUNCATE TABLE "name";` statement, or `None` for any other text. */
  function ParseTruncate(s: string): Option<string> {
    var p := |TruncatePrefix|;
    if |s| >= p + 2 && s[..p] == TruncatePrefix && s[|s| - 2..] == "\";" && '"' !in s[p..|s| - 2]
    then Some(s[p..|s| - 2])
    else None
  }

  /** Reading a truncate statement back gives its table name, for exactly the statements
      built from a name without a double quote. */
  lemma TruncateRoundTrip(s: string, name: string)
    ensures ParseTruncate(s) == Some(name) <==> '"' !in name && s == TruncateSql(name)
  {
    var p := |TruncatePrefix|;
    if '"' !in name && s == TruncateSql(name) {
      assert s == TruncatePrefix + name + "\";";
      assert s[..p] == TruncatePrefix && s[p..|s| - 2] == name && s[|s| - 2..] == "\";";
    }
    if ParseTruncate(s) == Some(name) {
      assert s == s[..p] + s[p..|s| - 2] + s[|s| - 2..];
    }
  }

  /** The table name and the entries of a `CREATE TABLE IF NOT EXISTS "name" (defs);`
      statement: the name runs to the next double quote, and the entries are the text
      between the parentheses split as `SplitDefs` does. */
  function ParseCreate(s: string): Option<(string, seq<string>)> {
    var p := |CreatePrefix|;
    if |s| < p || s[..p] != CreatePrefix then None
    else
      var rest := s[p..];
      match FirstIndex(rest, '"')
      case None => None
      case Some(q) =>
        var after := rest[q + 1..];
        if |after| >= 4 && after[..2] == " (" && after[|after| - 2..] == ");"
        then Some((rest[..q], SplitDefs(after[2..|after| - 2])))
        else None
  }

  /** Reading a create statement back gives the table's name and its `column_defs` split
      at the commas, whenever the name has no double quote in it. */
  lemma CreateRoundTrip(t: TableDef)
    requires '"' !in t.name
    ensures ParseCreate(CreateTableSql(t)) == Some((t.name, SplitDefs(ColumnDefs(t))))
  {
    var body := ColumnDefs(t);
    assert CreateTableSql(t) == CreatePrefix + t.name + "\" (" + body + ");";
    ParseCreateOf(t.name, body);
  }

  lemma ParseCreateOf(name: string, body: string)
    requires '"' !in name
    ensures ParseCreate(CreatePrefix + name + "\" (" + body + ");") == Some((name, SplitDefs(body)))
  {
    var s := CreatePrefix + name + "\" (" + body + ");";
    var p := |CreatePrefix|;
    var after := " (" + body + ");";
    var rest := name + ['"'] + after;
    assert s == CreatePrefix + rest;
    assert s[..p] == CreatePrefix && s[p..] == rest;
    FirstIndexAfter(name, '"', after);
    assert rest[|name| + 1..] == after && rest[..|name|] == name;
    assert after[..2] == " (" && after[|after| - 2..] == ");" && after[2..|after| - 2] == body;
  }

  /** The first `c` of `a + [c] + b` is the one after `a` when `a` has none. */
  lemma {:induction false} FirstIndexAfter(a: string, c: char, b: string)
    requires c !in a
    ensures FirstIndex(a + [c] + b, c) == Some(|a|)
  {
    if |a| > 0 {
      assert c !in a[1..] by {
        forall k | 0 <= k < |a| - 1 ensures a[1..][k] != c { assert a[1..][k] == a[k + 1]; }
      }
      FirstIndexAfter(a[1..], c, b);
      assert (a + [c] + b)[1..] == a[1..] + [c] + b;
    }
  }

  /** Each declared table's create statement reads back as its name and its
      `"name" TYPE` entries in declared order, and its truncate statement as its name. */
  lemma StatementsReadBack(k: nat)
    requires k < |Tables|
    ensures ParseCreate(CreateTableSql(Tables[k])) == Some((Tables[k].name, DefTexts(Tables[k])))
    ensures ParseTruncate(TruncateSql(Tables[k].name)) == Some(Tables[k].name)
  {
    TableNameQuoteFree(k);
    CreateRoundTrip(Tables[k]);
    CreateTableEntries(k);
    TruncateRoundTrip(TruncateSql(Tables[k].name), Tables[k].name);
  }

  lemma TableNameQuoteFree(k: nat)
    requires k < |Tables|
    ensures '"' !in Tables[k].name
  {
  }

  // ----- reading the entries back -----

  /** `s.split(c)`. */
  function Split(s: string, c: char): (pieces: seq<string>)
    ensures |pieces| > 0
  {
    if |s| == 0 then [""]
    else
      var r := Split(s[..|s| - 1], c);
      if s[|s| - 1] == c then r + [""] else r[..|r| - 1] + [r[|r| - 1] + [s[|s| - 1]]]
  }

  /** Splitting after a separator and a separator-free tail gives one piece more. */
  lemma {:induction false} SplitAppend(a: string, c: char, b: string)
    requires c !in b
    ensures Split(a + [c] + b, c) == Split(a, c) + [b]
  {
    if |b| == 0 {
      assert a + [c] + b == a + [c];
      assert (a + [c])[..|a|] == a;
    } else {
      var n := |b| - 1;
      assert c !in b[..n] by {
        forall k | 0 <= k < n ensures b[..n][k] != c { assert b[..n][k] == b[k]; }
      }
      SplitAppend(a, c, b[..n]);
      var s := a + [c] + b;
      assert s[..|s| - 1] == a + [c] + b[..n];
      assert s[|s| - 1] == b[n] && b[n] != c;
      assert b[..n] + [b[n]] == b;
    }
  }

  /** A piece without the separator splits to itself. */
  lemma {:induction false} SplitNone(b: string, c: char)
    requires c !in b
    ensures Split(b, c) == [b]
  {
    if |b| > 0 {
      var n := |b| - 1;
      assert c !in b[..n] by {
        forall k | 0 <= k < n ensures b[..n][k] != c { assert b[..n][k] == b[k]; }
      }
      SplitNone(b[..n], c);
      assert b[..n] + [b[n]] == b;
    }
  }

  /** The entries of a `", "`-joined list, read back: split at the commas and drop the
      space that follows each one. */
  function SplitDefs(s: string): seq<string> {
    var pieces := Split(s, ',');
    [pieces[0]] + Unpadded(pieces[1..])
  }

  function Padded(ps: seq<string>): (r: seq<string>)
    ensures |r| == |ps| && forall i :: 0 <= i < |ps| ==> r[i] == " " + ps[i]
  {
    seq(|ps|, i requires 0 <= i < |ps| => " " + ps[i])
  }

  function Unpadded(ps: seq<string>): (r: seq<string>)
    ensures |r| == |ps|
  {
    seq(|ps|, i requires 0 <= i < |ps| => if |ps[i]| > 0 then ps[i][1..] else ps[i])
  }

  lemma UnpaddedPadded(ps: seq<string>)
    ensures Unpadded(Padded(ps)) == ps
  {
    forall i | 0 <= i < |ps| ensures Unpadded(Padded(ps))[i] == ps[i] {
      assert (" " + ps[i])[1..] == ps[i];
    }
  }

  /** No entry contains a comma. */
  ghost predicate CommaFree(parts: seq<string>) {
    forall i :: 0 <= i < |parts| ==> ',' !in parts[i]
  }

  lemma {:induction false} SplitJoin(parts: seq<string>)
    requires |parts| > 0 && CommaFree(parts)
    ensures Split(Join(", ", parts), ',') == [parts[0]] + Padded(parts[1..])
  {
    var n := |parts| - 1;
    if n == 0 {
      SplitNone(parts[0], ',');
    } else {
      var prefix := parts[..n];
      assert CommaFree(prefix) by {
        forall i | 0 <= i < n ensures ',' !in prefix[i] { assert prefix[i] == parts[i]; }
      }
      SplitJoin(prefix);
      var tail := " " + parts[n];
      assert ',' !in tail by { assert tail[1..] == parts[n]; }
      assert Join(", ", parts) == Join(", ", prefix) + [','] + tail;
      SplitAppend(Join(", ", prefix), ',', tail);
      assert prefix[0] == parts[0];
      assert Padded(parts[1..]) == Padded(prefix[1..]) + [tail];
    }
  }

  /** Reading back the column definitions of a comma-free list gives the entries. */
  lemma SplitDefsJoin(parts: seq<string>)
    requires |parts| > 0 && CommaFree(parts)
    ensures SplitDefs(Join(", ", parts)) == parts
  {
    SplitJoin(parts);
    SplitDefsOf(Join(", ", parts), parts);
  }

  /** A text that splits into the first entry and the others, each after a space, reads
      back as the entries. */
  lemma SplitDefsOf(s: string, parts: seq<string>)
    requires |parts| > 0 && Split(s, ',') == [parts[0]] + Padded(parts[1..])
    ensures SplitDefs(s) == parts
  {
    var pieces := Split(s, ',');
    assert pieces[0] == parts[0] && pieces[1..] == Padded(parts[1..]);
    UnpaddedPadded(parts[1..]);
    assert [parts[0]] + parts[1..] == parts;
  }

  /** The entries of a table, in declared order. */
  function DefTexts(t: TableDef): (ds: seq<string>)
    ensures |ds| == |t.columns| && forall i :: 0 <= i < |ds| ==> ds[i] == DefText(t.columns[i])
  {
    seq(|t.columns|, i requires 0 <= i < |t.columns| => DefText(t.columns[i]))
  }

  /** No column name contains a comma. */
  lemma NameCommaFree(c: Column)
    ensures ',' !in Name(c)
  {
    NamesCommaFree1();
    NamesCommaFree2();
    NamesCommaFree3();
    NamesCommaFree4();
    NamesCommaFree5();
    NamesCommaFree6();
    NamesCommaFree7();
    NamesCommaFree8();
    NamesCommaFree9();
  }

  lemma NamesCommaFree1()
    ensures ',' !in Name(FiscalYear) && ',' !in Name(PayrollNumber) && ',' !in Name(AgencyID)
  {
  }

  lemma NamesCommaFree2()
    ensures ',' !in Name(AgencyName) && ',' !in Name(EmployeeID) && ',' !in Name(LastName)
  {
  }

  lemma NamesCommaFree3()
    ensures ',' !in Name(FirstName) && ',' !in Name(AgencyStartDate) && ',' !in Name(WorkLocationBorough)
  {
  }

  lemma NamesCommaFree4()
    ensures ',' !in Name(TitleCode) && ',' !in Name(TitleDescription) && ',' !in Name(LeaveStatusasofJune30)
  {
  }

  lemma NamesCommaFree5()
    ensures ',' !in Name(BaseSalary) && ',' !in Name(PayBasis) && ',' !in Name(RegularHours)
  {
  }

  lemma NamesCommaFree6()
    ensures ',' !in Name(RegularGrossPaid) && ',' !in Name(OTHours) && ',' !in Name(TotalOTPaid)
  {
  }

  lemma NamesCommaFree7()
    ensures ',' !in Name(TotalOtherPay) && ',' !in Name(PayBasisID) && ',' !in Name(DateID)
  {
  }

  lemma NamesCommaFree8()
    ensures ',' !in Name(Date) && ',' !in Name(Year) && ',' !in Name(Month)
  {
  }

  lemma NamesCommaFree9()
    ensures ',' !in Name(Day) && ',' !in Name(Quarter) && ',' !in Name(FactID)
  {
  }

  lemma DefTextCommaFree(d: ColumnDef)
    requires ',' !in d.sqlType
    ensures ',' !in DefText(d)
  {
    NameCommaFree(d.column);
  }

  /** No declared name or type contains a comma. */
  lemma DefTextsCommaFree(k: nat)
    requires k < |Tables|
    ensures CommaFree(DefTexts(Tables[k]))
  {
    var t := Tables[k];
    forall i | 0 <= i < |t.columns| ensures ',' !in DefText(t.columns[i]) {
      var c := t.columns[i];
      assert c.sqlType in ["INT", "VARCHAR(50)", "DATE", "TEXT", "VARCHAR(255)", "FLOAT"];
      DefTextCommaFree(c);
    }
  }

  /** Splitting the `column_defs` of any declared table at its commas gives back its
      `"name" TYPE` entries, one per declared column, in declared order. */
  lemma CreateTableEntries(k: nat)
    requires k < |Tables|
    ensures SplitDefs(ColumnDefs(Tables[k])) == DefTexts(Tables[k])
  {
    DefTextsCommaFree(k);
    assert ColumnDefs(Tables[k]) == Join(", ", DefTexts(Tables[k]));
    SplitDefsJoin(DefTexts(Tables[k]));
  }
}
