/** `load_data_to_snowflake` (load.py): the statements it sends over one connection to the
    warehouse, and the warehouse as an object whose tables those statements change. */
module Loader {
  import opened Wrappers
  import opened Frames
  import opened Schema
  import opened Facts

  /** A statement sent over the connection. `Replace` is `to_sql(..., if_exists="replace")`:
      the table is dropped and written afresh from the frame. */
  datatype Statement =
    | CreateTable(def: TableDef)
    | Truncate(name: string)
    | Replace(name: string, frame: Frame)
    | Commit
    | CallProcedure(procedure: string)

  /** The contents of the warehouse, by table name. */
  type Contents = map<string, Frame>

  /** A statement the warehouse can run on `ts`: truncating a table that does not exist
      fails, everything else can run. */
  predicate Applicable(ts: Contents, s: Statement) {
    s.Truncate? ==> s.name in ts
  }

  /** The table contents after `s` has run. */
  function Apply(ts: Contents, s: Statement): Contents {
    match s
    case CreateTable(t) => if t.name in ts then ts else ts[t.name := Frame(ColumnsOf(t), [])]
    case Truncate(n) => if n in ts then ts[n := Frame(ts[n].columns, [])] else ts
    case Replace(n, f) => ts[n := f]
    case Commit => ts
    case CallProcedure(_) => ts
  }

  /** The table a statement addresses, if any. */
  function Target(s: Statement): set<string> {
    match s
    case CreateTable(t) => {t.name}
    case Truncate(n) => {n}
    case Replace(n, _) => {n}
    case Commit => {}
    case CallProcedure(_) => {}
  }

  lemma PrefixSnoc<T>(s: seq<T>, i: nat)
    requires i < |s|
    ensures s[..i + 1] == s[..i] + [s[i]]
  {
  }

  /** A statement never drops a table and changes at most the table it addresses:
      `CREATE TABLE IF NOT EXISTS` adds an empty table with the declared columns and leaves
      an existing one alone; `TRUNCATE` empties an existing table and keeps its columns;
      `to_sql(..., if_exists="replace")` puts the frame in place of whatever was there. */
  lemma ApplyChangesOnlyItsTable(ts: Contents, s: Statement)
    ensures ts.Keys <= Apply(ts, s).Keys <= ts.Keys + Target(s)
    ensures forall n :: n in ts && n !in Target(s) ==> Apply(ts, s)[n] == ts[n]
    ensures s.CreateTable? ==>
      s.def.name in Apply(ts, s) &&
      (s.def.name in ts ==> Apply(ts, s) == ts) &&
      (s.def.name !in ts ==> Apply(ts, s)[s.def.name] == Frame(ColumnsOf(s.def), []))
    ensures s.Truncate? && s.name in ts ==>
      Apply(ts, s)[s.name].rows == [] && Apply(ts, s)[s.name].columns == ts[s.name].columns
    ensures s.Replace? ==> s.name in Apply(ts, s) && Apply(ts, s)[s.name] == s.frame
  {
  }

  /** The table contents after running `stmts` in order. */
  function Replay(ts: Contents, stmts: seq<Statement>): Contents {
    if |stmts| == 0 then ts else Apply(Replay(ts, stmts[..|stmts| - 1]), stmts[|stmts| - 1])
  }

  lemma ReplaySnoc(ts: Contents, stmts: seq<Statement>, s: Statement)
    ensures Replay(ts, stmts + [s]) == Apply(Replay(ts, stmts), s)
  {
    assert (stmts + [s])[..|stmts|] == stmts;
  }

  lemma {:induction false} ReplayAppend(ts: Contents, a: seq<Statement>, b: seq<Statement>)
    ensures Replay(ts, a + b) == Replay(Replay(ts, a), b)
  {
    if |b| == 0 {
      assert a + b == a;
    } else {
      var n := |b| - 1;
      ReplayAppend(ts, a, b[..n]);
      assert a + b == (a + b[..n]) + [b[n]];
      assert b == b[..n] + [b[n]];
      ReplaySnoc(ts, a + b[..n], b[n]);
      ReplaySnoc(Replay(ts, a), b[..n], b[n]);
    }
  }

  /** A table that no statement of `stmts` addresses comes out of the replay as it went in. */
  lemma {:induction false} ReplayUntouched(ts: Contents, stmts: seq<Statement>, n: string)
    requires n in ts && forall k :: 0 <= k < |stmts| ==> n !in Target(stmts[k])
    ensures n in Replay(ts, stmts) && Replay(ts, stmts)[n] == ts[n]
  {
    if |stmts| > 0 {
      var m := |stmts| - 1;
      ReplayUntouched(ts, stmts[..m], n);
      ApplyChangesOnlyItsTable(Replay(ts, stmts[..m]), stmts[m]);
    }
  }

  /** None of the statements numbered `start` to `start + len - 1` is the failing one. */
  predicate NoFault(faultAt: Option<nat>, start: nat, len: nat) {
    faultAt.None? || faultAt.value < start || faultAt.value >= start + len
  }

  // ----- what the load sends -----

  /** The `CREATE TABLE IF NOT EXISTS` loop, one statement per entry of `tables`. */
  function CreateStatements(): (ss: seq<Statement>)
    ensures |ss| == |Tables| && forall k :: 0 <= k < |Tables| ==> ss[k] == CreateTable(Tables[k])
  {
    seq(|Tables|, k requires 0 <= k < |Tables| => CreateTable(Tables[k]))
  }

  /** The `TRUNCATE TABLE` loop, one statement per entry of `tables`. */
  function TruncateStatements(): (ss: seq<Statement>)
    ensures |ss| == |Tables| && forall k :: 0 <= k < |Tables| ==> ss[k] == Truncate(Tables[k].name)
  {
    seq(|Tables|, k requires 0 <= k < |Tables| => Truncate(Tables[k].name))
  }

  function Setup(): seq<Statement> {
    CreateStatements() + TruncateStatements()
  }

  /** The writes a load sends after the setup, and the exception that stops it before the
      commit, if any, other than one raised by the warehouse itself. */
  datatype Stage = Stage(writes: seq<Statement>, failure: Option<LoadError>)

  /** The stage after the next write: once a step has raised nothing more happens;
      otherwise the frame is written, or computing it raises. */
  function Then(st: Stage, table: string, f: Result<Frame, LoadError>): (r: Stage)
    ensures r.failure.None? <==> st.failure.None? && f.Ok?
    ensures r.failure.None? ==> r.writes == st.writes + [Replace(table, f.value)]
    ensures r.failure.Some? ==> r.writes == st.writes
    ensures AllReplace(st.writes) ==> AllReplace(r.writes)
    ensures st.writes <= r.writes && (st.failure.Some? ==> r == st)
  {
    if st.failure.Some? then st
    else match f
      case Err(e) => Stage(st.writes, Some(e))
      case Ok(frame) => Stage(st.writes + [Replace(table, frame)], None)
  }

  ghost predicate AllReplace(ws: seq<Statement>) {
    forall k :: 0 <= k < |ws| ==> ws[k].Replace?
  }

  /** The fact table, once `dim_date` has been read back. */
  function FactFrom(cleaned: Frame, dimDate: Result<Frame, LoadError>): Result<Frame, LoadError> {
    match dimDate
    case Err(e) => Err(e)
    case Ok(d) => FactPayroll(cleaned, d)
  }

  /** The five `to_sql` writes, in order: the three projections of the cleaned file,
      `dim_date` as read back, and the fact table. A step that raises ends the list. */
  function WriteStage(cleaned: Frame, dimDateCsv: Frame): (st: Stage)
    ensures st.failure.None? <==> |st.writes| == 5
    ensures |st.writes| <= 5 && AllReplace(st.writes)
  {
    var s0 := Stage([], None);
    var s1 := Then(s0, "Dim_Employee", Project(cleaned, EmployeeColumns));
    assert |s1.writes| <= 1 && (s1.failure.None? <==> |s1.writes| == 1);
    var s2 := Then(s1, "Dim_Agency", Project(cleaned, AgencyColumns));
    assert |s2.writes| <= 2 && (s2.failure.None? <==> |s2.writes| == 2);
    var s3 := Then(s2, "Dim_PayBasis", Project(cleaned, PayBasisColumns));
    assert |s3.writes| <= 3 && (s3.failure.None? <==> |s3.writes| == 3);
    var s4 := Then(s3, "Dim_Date", ReadCsv(dimDateCsv));
    assert |s4.writes| <= 4 && (s4.failure.None? <==> |s4.writes| == 4);
    Then(s4, "FactPayroll", FactFrom(cleaned, ReadCsv(dimDateCsv)))
  }

  /** The statements a load sends, and the exception that stops it, if any, other than one
      raised by the warehouse itself. */
  datatype Plan = Plan(stmts: seq<Statement>, failure: Option<LoadError>)

  /** The load as a sequence of statements: read the cleaned file; create, then truncate,
      every table; write the five frames; commit. */
  function LoadPlan(cleanedCsv: Frame, dimDateCsv: Frame): Plan {
    match ReadCsv(cleanedCsv)
    case Err(e) => Plan([], Some(e))
    case Ok(cleaned) =>
      var st := WriteStage(cleaned, dimDateCsv);
      Plan(Setup() + st.writes + (if st.failure.None? then [Commit] else []), st.failure)
  }

  /** The names of the five tables. */
  const TableNameSet: set<string> := {"Dim_Employee", "Dim_Agency", "Dim_PayBasis", "Dim_Date", "FactPayroll"}

  lemma TableNameSetIsTables()
    ensures (set j | 0 <= j < |Tables| :: Tables[j].name) == TableNameSet
  {
    assert "Dim_Employee" == Tables[0].name && "Dim_Agency" == Tables[1].name;
    assert "Dim_PayBasis" == Tables[2].name && "Dim_Date" == Tables[3].name && "FactPayroll" == Tables[4].name;
  }

  /** The frame a complete load writes to each of the five tables. */
  function PlannedFrames(cleanedCsv: Frame, dimDateCsv: Frame): (fs: map<string, Frame>)
    requires LoadPlan(cleanedCsv, dimDateCsv).failure.None?
    ensures fs.Keys == TableNameSet
  {
    map[
      "Dim_Employee" := Project(cleanedCsv, EmployeeColumns).value,
      "Dim_Agency" := Project(cleanedCsv, AgencyColumns).value,
      "Dim_PayBasis" := Project(cleanedCsv, PayBasisColumns).value,
      "Dim_Date" := dimDateCsv,
      "FactPayroll" := FactPayroll(cleanedCsv, dimDateCsv).value]
  }

  /** The five writes of a complete load, in table order, followed by the commit. */
  function Writes(fs: map<string, Frame>): seq<Statement>
    requires fs.Keys == TableNameSet
  {
    [Replace("Dim_Employee", fs["Dim_Employee"]), Replace("Dim_Agency", fs["Dim_Agency"]),
     Replace("Dim_PayBasis", fs["Dim_PayBasis"]), Replace("Dim_Date", fs["Dim_Date"]),
     Replace("FactPayroll", fs["FactPayroll"]), Commit]
  }

  /** A complete load sends the setup, then one write per table with the frame planned for
      it, then the commit. */
  lemma PlanStatements(cleanedCsv: Frame, dimDateCsv: Frame)
    requires LoadPlan(cleanedCsv, dimDateCsv).failure.None?
    ensures LoadPlan(cleanedCsv, dimDateCsv).stmts == Setup() + Writes(PlannedFrames(cleanedCsv, dimDateCsv))
  {
    var st := WriteStage(cleanedCsv, dimDateCsv);
    CompleteWrites(cleanedCsv, dimDateCsv);
    assert LoadPlan(cleanedCsv, dimDateCsv).stmts == Setup() + st.writes + [Commit];
  }

  /** A write stage that raises nothing writes the three projections, the date dimension as
      read and the fact table. */
  lemma CompleteWrites(cleaned: Frame, dimDateCsv: Frame)
    requires WriteStage(cleaned, dimDateCsv).failure.None?
    ensures var st := WriteStage(cleaned, dimDateCsv);
      && Project(cleaned, EmployeeColumns).Ok? && Project(cleaned, AgencyColumns).Ok?
      && Project(cleaned, PayBasisColumns).Ok? && ReadCsv(dimDateCsv).Ok?
      && FactPayroll(cleaned, dimDateCsv).Ok?
      && st.writes == [
           Replace("Dim_Employee", Project(cleaned, EmployeeColumns).value),
           Replace("Dim_Agency", Project(cleaned, AgencyColumns).value),
           Replace("Dim_PayBasis", Project(cleaned, PayBasisColumns).value),
           Replace("Dim_Date", dimDateCsv),
           Replace("FactPayroll", FactPayroll(cleaned, dimDateCsv).value)]
  {
    var s0 := Stage([], None);
    var s1 := Then(s0, "Dim_Employee", Project(cleaned, EmployeeColumns));
    var s2 := Then(s1, "Dim_Agency", Project(cleaned, AgencyColumns));
    var s3 := Then(s2, "Dim_PayBasis", Project(cleaned, PayBasisColumns));
    var s4 := Then(s3, "Dim_Date", ReadCsv(dimDateCsv));
    var s5 := Then(s4, "FactPayroll", FactFrom(cleaned, ReadCsv(dimDateCsv)));
    assert WriteStage(cleaned, dimDateCsv) == s5;
    assert s4.failure.None? && s3.failure.None? && s2.failure.None? && s1.failure.None?;
    assert s1.writes == [Replace("Dim_Employee", Project(cleaned, EmployeeColumns).value)];
    assert s2.writes == s1.writes + [Replace("Dim_Agency", Project(cleaned, AgencyColumns).value)];
    assert s3.writes == s2.writes + [Replace("Dim_PayBasis", Project(cleaned, PayBasisColumns).value)];
    assert s4.writes == s3.writes + [Replace("Dim_Date", dimDateCsv)];
  }

  /** A complete load sends the five `CREATE TABLE`s and the five `TRUNCATE`s in the order of
      `tables`, then the five writes in the same order, then the commit. */
  lemma CompletePlan(cleanedCsv: Frame, dimDateCsv: Frame)
    requires LoadPlan(cleanedCsv, dimDateCsv).failure.None?
    ensures var p := LoadPlan(cleanedCsv, dimDateCsv).stmts;
      var fs := PlannedFrames(cleanedCsv, dimDateCsv);
      && |p| == 16 && p[15] == Commit
      && forall k :: 0 <= k < |Tables| ==>
           && p[k] == CreateTable(Tables[k])
           && p[|Tables| + k] == Truncate(Tables[k].name)
           && Tables[k].name in fs && p[2 * |Tables| + k] == Replace(Tables[k].name, fs[Tables[k].name])
  {
    PlanStatements(cleanedCsv, dimDateCsv);
    var fs := PlannedFrames(cleanedCsv, dimDateCsv);
    var p := LoadPlan(cleanedCsv, dimDateCsv).stmts;
    forall k | 0 <= k < |Tables|
      ensures p[k] == CreateTable(Tables[k]) && p[|Tables| + k] == Truncate(Tables[k].name)
      ensures Tables[k].name in fs && p[2 * |Tables| + k] == Replace(Tables[k].name, fs[Tables[k].name])
    {
      WriteOfTable(fs, k);
      assert p[2 * |Tables| + k] == Writes(fs)[k];
    }
  }

  /** The `k`th write of a complete load replaces the `k`th table with its planned frame. */
  lemma WriteOfTable(fs: map<string, Frame>, k: nat)
    requires fs.Keys == TableNameSet && k < |Tables|
    ensures Tables[k].name in fs && Writes(fs)[k] == Replace(Tables[k].name, fs[Tables[k].name])
  {
    TableNameSetIsTables();
    assert Tables[k].name in TableNameSet;
  }

  /** A complete load sends sixteen statements and commits only with the last one; a load
      that stops early never commits. */
  lemma CommitOnlyAtTheEnd(cleanedCsv: Frame, dimDateCsv: Frame)
    ensures var p := LoadPlan(cleanedCsv, dimDateCsv);
      && (p.failure.None? ==> |p.stmts| == 16 && p.stmts[15] == Commit && Commit !in p.stmts[..15])
      && (p.failure.Some? ==> Commit !in p.stmts)
  {
    var p := LoadPlan(cleanedCsv, dimDateCsv);
    if ReadCsv(cleanedCsv).Ok? {
      var st := WriteStage(cleanedCsv, dimDateCsv);
      var body := Setup() + st.writes;
      assert Commit !in body by {
        forall k | 0 <= k < |body| ensures body[k] != Commit {
          if k < |Tables| { assert body[k] == CreateStatements()[k]; }
          else if k < 2 * |Tables| { assert body[k] == TruncateStatements()[k - |Tables|]; }
          else { assert body[k] == st.writes[k - 2 * |Tables|]; }
        }
      }
      if st.failure.None? {
        assert p.stmts[..15] == body;
      }
    }
  }

  /** Creating tables adds the missing ones, empty with their declared columns, and never
      changes a table that already exists. */
  lemma {:induction false} CreatesReplay(ts: Contents, defs: seq<TableDef>, cs: seq<Statement>, k: nat)
    requires k <= |defs| == |cs| && forall i :: 0 <= i < |cs| ==> cs[i] == CreateTable(defs[i])
    ensures Replay(ts, cs[..k]).Keys == ts.Keys + (set j | 0 <= j < k :: defs[j].name)
    ensures forall n :: n in ts ==> Replay(ts, cs[..k])[n] == ts[n]
    ensures forall n :: n in Replay(ts, cs[..k]) && n !in ts ==> Replay(ts, cs[..k])[n].rows == []
  {
    if k > 0 {
      CreatesReplay(ts, defs, cs, k - 1);
      var t := defs[k - 1];
      var prev := Replay(ts, cs[..k - 1]);
      assert cs[..k] == cs[..k - 1] + [CreateTable(t)];
      ReplaySnoc(ts, cs[..k - 1], CreateTable(t));
      assert (set j | 0 <= j < k :: defs[j].name) == (set j | 0 <= j < k - 1 :: defs[j].name) + {t.name};
    }
  }

  /** Truncating tables keeps every name and every table's columns, empties each table it
      names, and touches no table outside the list. */
  lemma {:induction false} TruncatesReplay(ts: Contents, names: set<string>, us: seq<Statement>, k: nat)
    requires k <= |us| && forall i :: 0 <= i < |us| ==> us[i].Truncate? && us[i].name in names
    ensures Replay(ts, us[..k]).Keys == ts.Keys
    ensures forall n :: n in ts && n !in names ==> Replay(ts, us[..k])[n] == ts[n]
    ensures forall n :: n in ts ==> Replay(ts, us[..k])[n].columns == ts[n].columns
    ensures forall i :: 0 <= i < k && us[i].name in ts ==> Replay(ts, us[..k])[us[i].name].rows == []
  {
    if k > 0 {
      TruncatesReplay(ts, names, us, k - 1);
      assert us[..k] == us[..k - 1] + [us[k - 1]];
      ReplaySnoc(ts, us[..k - 1], us[k - 1]);
      ApplyChangesOnlyItsTable(Replay(ts, us[..k - 1]), us[k - 1]);
    }
  }

  /** Creating and then truncating the five tables adds exactly those names, leaves each
      of the five empty, keeps the columns of every table that already existed, and leaves
      every other table as it was. */
  lemma SetupReplay(ts: Contents)
    ensures Replay(ts, Setup()).Keys == ts.Keys + TableNameSet
    ensures forall n :: n in ts && n !in TableNameSet ==> Replay(ts, Setup())[n] == ts[n]
    ensures forall n :: n in TableNameSet ==> Replay(ts, Setup())[n].rows == []
    ensures forall n :: n in ts ==> Replay(ts, Setup())[n].columns == ts[n].columns
  {
    var cs := CreateStatements();
    var us := TruncateStatements();
    assert cs[..|Tables|] == cs && us[..|Tables|] == us;
    CreatesReplay(ts, Tables, cs, |Tables|);
    TableNameSetIsTables();
    forall i | 0 <= i < |us| ensures us[i].name in TableNameSet {
      assert us[i].name == Tables[i].name;
    }
    var mid := Replay(ts, cs);
    TruncatesReplay(mid, TableNameSet, us, |Tables|);
    ReplayAppend(ts, cs, us);
    forall n | n in TableNameSet ensures Replay(ts, Setup())[n].rows == [] {
      var i :| 0 <= i < |Tables| && Tables[i].name == n;
      assert us[i].name == n && n in mid;
    }
  }

  /** After a complete load each of the five tables holds exactly the frame this run wrote,
      whatever it held before, so reloading never accumulates rows; every other table is
      left as it was. */
  lemma LoadReplacesTables(ts: Contents, cleanedCsv: Frame, dimDateCsv: Frame)
    requires LoadPlan(cleanedCsv, dimDateCsv).failure.None?
    ensures var after := Replay(ts, LoadPlan(cleanedCsv, dimDateCsv).stmts);
      var fs := PlannedFrames(cleanedCsv, dimDateCsv);
      && after.Keys == ts.Keys + TableNameSet
      && (forall n :: n in TableNameSet ==> after[n] == fs[n])
      && (forall n :: n in ts && n !in TableNameSet ==> after[n] == ts[n])
  {
    var fs := PlannedFrames(cleanedCsv, dimDateCsv);
    var w := Writes(fs);
    PlanStatements(cleanedCsv, dimDateCsv);
    ReplayAppend(ts, Setup(), w);
    SetupReplay(ts);
    WritesReplay(Replay(ts, Setup()), w, fs);
  }

  /** Writing the five frames and committing puts each frame under its name. */
  lemma WritesReplay(mid: Contents, w: seq<Statement>, fs: map<string, Frame>)
    requires fs.Keys == TableNameSet
    requires w == Writes(fs)
    ensures Replay(mid, w).Keys == mid.Keys + TableNameSet
    ensures forall n :: n in TableNameSet ==> Replay(mid, w)[n] == fs[n]
    ensures forall n :: n in mid && n !in TableNameSet ==> Replay(mid, w)[n] == mid[n]
  {
    ReplayFive(mid, w);
  }

  /** Six statements replayed one after another. */
  lemma ReplayFive(ts: Contents, w: seq<Statement>)
    requires |w| == 6
    ensures Replay(ts, w) == Apply(Apply(Apply(Apply(Apply(Apply(ts, w[0]), w[1]), w[2]), w[3]), w[4]), w[5])
  {
    var r1 := Apply(ts, w[0]);
    assert Replay(ts, w[..1]) == r1 by { assert w[..1][..0] == []; }
    var r2 := Apply(r1, w[1]);
    assert Replay(ts, w[..2]) == r2 by { assert w[..2][..1] == w[..1]; }
    var r3 := Apply(r2, w[2]);
    assert Replay(ts, w[..3]) == r3 by { assert w[..3][..2] == w[..2]; }
    var r4 := Apply(r3, w[3]);
    assert Replay(ts, w[..4]) == r4 by { assert w[..4][..3] == w[..3]; }
    var r5 := Apply(r4, w[4]);
    assert Replay(ts, w[..5]) == r5 by { assert w[..5][..4] == w[..4]; }
    assert w[..5] == w[..|w| - 1];
  }

  /** Loading the same files a second time leaves exactly what one load leaves. */
  lemma ReloadIdempotent(ts: Contents, cleanedCsv: Frame, dimDateCsv: Frame)
    requires LoadPlan(cleanedCsv, dimDateCsv).failure.None?
    ensures var stmts := LoadPlan(cleanedCsv, dimDateCsv).stmts;
      Replay(Replay(ts, stmts), stmts) == Replay(ts, stmts)
  {
    var stmts := LoadPlan(cleanedCsv, dimDateCsv).stmts;
    LoadReplacesTables(ts, cleanedCsv, dimDateCsv);
    LoadReplacesTables(Replay(ts, stmts), cleanedCsv, dimDateCsv);
  }

  /** The result of running plan `p` from statement number `start` when statement number
      `faultAt` fails: the plan's own result when none of its statements fails, the
      database error otherwise. */
  function LoadResult(faultAt: Option<nat>, start: nat, p: Plan): (r: Result<(), LoadError>)
    ensures r.Ok? <==> p.failure.None? && NoFault(faultAt, start, |p.stmts|)
  {
    if !NoFault(faultAt, start, |p.stmts|) then Err(DatabaseError(faultAt.value))
    else if p.failure.Some? then Err(p.failure.value)
    else Ok(())
  }

  /** The statements sent: all of the plan's, or those up to and including the failing one. */
  function LoadSent(faultAt: Option<nat>, start: nat, p: Plan): (sent: seq<Statement>)
    ensures sent <= p.stmts
    ensures NoFault(faultAt, start, |p.stmts|) ==> sent == p.stmts
  {
    if NoFault(faultAt, start, |p.stmts|) then p.stmts else p.stmts[..faultAt.value - start + 1]
  }

  // ----- the warehouse -----

  /** The warehouse as one connection sees it. Statements change `tables` at once; other
      sessions see `committed`, which a commit advances and a rollback restores. The
      statement numbered `faultAt` in `history`, if any, fails (a lost connection, a
      rejected statement): it is sent but changes nothing. */
  class Warehouse {
    var tables: Contents
    var committed: Contents
    var history: seq<Statement>
    const faultAt: Option<nat>

    constructor (initial: Contents, faultAt: Option<nat>)
      ensures tables == committed == initial && history == [] && this.faultAt == faultAt
    {
      tables := initial;
      committed := initial;
      history := [];
      this.faultAt := faultAt;
    }

    /** Nothing is pending: a new connection sees the committed tables. */
    ghost predicate Idle()
      reads this
    {
      tables == committed
    }

    /** `conn.execute(...)`: the statement is sent; it takes effect if the warehouse can run
        it and it is not the failing one; a commit makes the connection's tables durable. */
    method Execute(s: Statement) returns (ok: bool)
      modifies this
      ensures history == old(history) + [s]
      ensures ok <==> Applicable(old(tables), s) && faultAt != Some(|old(history)|)
      ensures tables == if ok then Apply(old(tables), s) else old(tables)
      ensures committed == if ok && s.Commit? then tables else old(committed)
    {
      ok := Applicable(tables, s) && faultAt != Some(|history|);
      history := history + [s];
      if ok {
        tables := Apply(tables, s);
        if s.Commit? {
          committed := tables;
        }
      }
    }

    /** Leaving the `with engine.connect()` block without a commit: what the connection did
        since the last commit is undone. */
    method Rollback()
      modifies this
      ensures tables == committed == old(committed) && history == old(history)
    {
      tables := committed;
    }

    /** The connection has sent `sent` since `h0`, all of it has taken effect on `t0`, and
        nothing is committed yet. */
    ghost predicate Sent(h0: seq<Statement>, t0: Contents, sent: seq<Statement>)
      reads this
    {
      history == h0 + sent && tables == Replay(t0, sent) && committed == t0 &&
      NoFault(faultAt, |h0|, |sent|)
    }

    /** One statement of the load; when it fails the connection rolls back. */
    method Step(s: Statement, ghost h0: seq<Statement>, ghost t0: Contents, ghost sent: seq<Statement>)
      returns (ok: bool)
      requires Sent(h0, t0, sent) && Applicable(tables, s) && !s.Commit?
      modifies this
      ensures ok <==> faultAt != Some(|h0| + |sent|)
      ensures ok ==> Sent(h0, t0, sent + [s]) && tables == Apply(old(tables), s)
      ensures !ok ==> history == h0 + sent + [s] && tables == committed == t0
    {
      ok := Execute(s);
      if ok {
        ReplaySnoc(t0, sent, s);
      } else {
        Rollback();
      }
    }

    /** How a load that started from history `h0` and committed tables `c0` ends, given
        its plan `p`: its result and the statements it sent are those of `LoadResult` and
        `LoadSent`; only a load that succeeds changes the committed tables, and they are
        then the planned ones; in every case nothing is left pending. */
    ghost predicate Loaded(h0: seq<Statement>, c0: Contents, p: Plan, r: Result<(), LoadError>)
      reads this
    {
      && tables == committed
      && r == LoadResult(faultAt, |h0|, p)
      && history == h0 + LoadSent(faultAt, |h0|, p)
      && committed == (if r.Ok? then Replay(c0, p.stmts) else c0)
    }

    /** `load_data_to_snowflake`: read the cleaned file, then, over one connection, create
        and truncate the five tables, write the five frames and commit. A failure anywhere
        is re-raised; the connection then closes without a commit, so nothing of this run
        becomes visible. */
    method Load(cleanedCsv: Frame, dimDateCsv: Frame) returns (r: Result<(), LoadError>)
      requires Idle()
      modifies this
      ensures Loaded(old(history), old(committed), LoadPlan(cleanedCsv, dimDateCsv), r)
    {
      var read := ReadCsv(cleanedCsv);
      if read.Err? {
        return Err(read.error);
      }
      r := LoadCleaned(read.value, dimDateCsv, LoadPlan(cleanedCsv, dimDateCsv), WriteStage(read.value, dimDateCsv));
    }

    /** The part of the load that runs over the connection, once the cleaned file is read. */
    method LoadCleaned(cleaned: Frame, dimDateCsv: Frame, ghost p: Plan, ghost st: Stage)
      returns (r: Result<(), LoadError>)
      requires Idle() && st == WriteStage(cleaned, dimDateCsv)
      requires p.stmts == Setup() + st.writes + (if st.failure.None? then [Commit] else [])
      requires p.failure == st.failure
      modifies this
      ensures Loaded(old(history), old(committed), p, r)
    {
      ghost var h0 := history;
      ghost var t0 := tables;
      var ok := Prepare(h0, t0, p, st);
      if !ok {
        return Err(DatabaseError(|history| - 1));
      }
      r := WriteAndCommit(cleaned, dimDateCsv, h0, t0, p, st);
    }

    /** The five writes, then the commit if they all took effect. */
    method WriteAndCommit(cleaned: Frame, dimDateCsv: Frame, ghost h0: seq<Statement>, ghost t0: Contents,
                          ghost p: Plan, ghost st: Stage) returns (r: Result<(), LoadError>)
      requires Sent(h0, t0, Setup()) && st == WriteStage(cleaned, dimDateCsv)
      requires p.stmts == Setup() + st.writes + (if st.failure.None? then [Commit] else [])
      requires p.failure == st.failure
      modifies this
      ensures Loaded(h0, t0, p, r)
    {
      r := WriteAll(cleaned, dimDateCsv, h0, t0, Setup());
      if r.Err? {
        WritesFailed(h0, t0, p, st, r);
        return;
      }
      r := CommitLoad(h0, t0, p, st, r);
    }

    /** `conn.commit()` once every write has taken effect. */
    method CommitLoad(ghost h0: seq<Statement>, ghost t0: Contents, ghost p: Plan, ghost st: Stage,
                      r0: Result<(), LoadError>) returns (r: Result<(), LoadError>)
      requires Finished(h0, t0, Setup(), st, r0) && r0.Ok?
      requires p.stmts == Setup() + st.writes + (if st.failure.None? then [Commit] else [])
      requires p.failure == st.failure
      modifies this
      ensures Loaded(h0, t0, p, r)
    {
      FinishedOk(h0, t0, Setup(), st, r0);
      ghost var sent := Setup() + st.writes;
      var ok := Execute(Commit);
      if !ok {
        Rollback();
        CommitFailed(h0, t0, p, sent);
        return Err(DatabaseError(|history| - 1));
      }
      Committed(h0, t0, p, sent);
      r := Ok(());
    }

    lemma CommitFailed(h0: seq<Statement>, t0: Contents, p: Plan, sent: seq<Statement>)
      requires p.stmts == sent + [Commit] && p.failure.None?
      requires history == h0 + sent + [Commit] && faultAt == Some(|h0| + |sent|)
      requires tables == committed == t0
      ensures Loaded(h0, t0, p, Err(DatabaseError(faultAt.value))) && |history| == faultAt.value + 1
    {
      assert p.stmts[..faultAt.value - |h0| + 1] == p.stmts;
    }

    lemma Committed(h0: seq<Statement>, t0: Contents, p: Plan, sent: seq<Statement>)
      requires p.stmts == sent + [Commit] && p.failure.None?
      requires history == h0 + sent + [Commit] && NoFault(faultAt, |h0|, |sent|) && faultAt != Some(|h0| + |sent|)
      requires tables == committed == Replay(t0, sent)
      ensures Loaded(h0, t0, p, Ok(()))
    {
      ReplaySnoc(t0, sent, Commit);
    }

    lemma PrepareFailed(h0: seq<Statement>, t0: Contents, p: Plan, st: Stage)
      requires p.stmts == Setup() + st.writes + (if st.failure.None? then [Commit] else [])
      requires faultAt.Some? && tables == committed == t0 && |h0| <= faultAt.value < |h0| + |Setup()|
      requires history == h0 + Setup()[..faultAt.value - |h0| + 1]
      ensures Loaded(h0, t0, p, Err(DatabaseError(faultAt.value))) && |history| == faultAt.value + 1
    {
      var k := faultAt.value - |h0| + 1;
      assert p.stmts[..k] == Setup()[..k];
    }

    lemma WritesFailed(h0: seq<Statement>, t0: Contents, p: Plan, st: Stage, r: Result<(), LoadError>)
      requires p.stmts == Setup() + st.writes + (if st.failure.None? then [Commit] else [])
      requires p.failure == st.failure
      requires Finished(h0, t0, Setup(), st, r) && r.Err?
      ensures Loaded(h0, t0, p, r)
    {
      if NoFault(faultAt, |h0|, |Setup()| + |st.writes|) {
        assert st.failure.Some? && p.stmts == Setup() + st.writes;
      } else {
        var k := faultAt.value - |h0| + 1;
        assert p.stmts[..k] == (Setup() + st.writes)[..k];
      }
    }

    /** The two loops over `tables`: `CREATE TABLE IF NOT EXISTS`, then `TRUNCATE TABLE`. */
    method Prepare(ghost h0: seq<Statement>, ghost t0: Contents, ghost p: Plan, ghost st: Stage) returns (ok: bool)
      requires Sent(h0, t0, [])
      requires p.stmts == Setup() + st.writes + (if st.failure.None? then [Commit] else [])
      modifies this
      ensures ok <==> NoFault(faultAt, |h0|, |Setup()|)
      ensures ok ==> Sent(h0, t0, Setup())
      ensures !ok ==> (tables == committed == t0 && |h0| <= faultAt.value < |h0| + |Setup()| &&
                       history == h0 + Setup()[..faultAt.value - |h0| + 1])
      ensures !ok ==> Loaded(h0, t0, p, Err(DatabaseError(|history| - 1)))
    {
      ok := CreateTables(h0, t0);
      if !ok {
        assert Setup()[..faultAt.value - |h0| + 1] == CreateStatements()[..faultAt.value - |h0| + 1];
        PrepareFailed(h0, t0, p, st);
        return;
      }
      ok := TruncateTables(h0, t0, CreateStatements());
      if !ok {
        var k := faultAt.value - |h0| - |Tables| + 1;
        assert Setup()[..|Tables| + k] == CreateStatements() + TruncateStatements()[..k];
        PrepareFailed(h0, t0, p, st);
      }
    }

    /** The create loop: each table that does not yet exist is created empty. */
    method CreateTables(ghost h0: seq<Statement>, ghost t0: Contents) returns (ok: bool)
      requires Sent(h0, t0, [])
      modifies this
      ensures ok <==> NoFault(faultAt, |h0|, |Tables|)
      ensures ok ==> Sent(h0, t0, CreateStatements()) && forall j :: 0 <= j < |Tables| ==> Tables[j].name in tables
      ensures !ok ==> (tables == committed == t0 && |h0| <= faultAt.value < |h0| + |Tables| &&
                       history == h0 + CreateStatements()[..faultAt.value - |h0| + 1])
    {
      ghost var sent: seq<Statement> := [];
      for i := 0 to |Tables|
        invariant Sent(h0, t0, sent) && sent == CreateStatements()[..i]
        invariant forall j :: 0 <= j < i ==> Tables[j].name in tables
      {
        assert CreateStatements()[..i + 1] == sent + [CreateTable(Tables[i])];
        ok := Step(CreateTable(Tables[i]), h0, t0, sent);
        if !ok {
          return;
        }
        sent := sent + [CreateTable(Tables[i])];
      }
      assert sent == CreateStatements();
      ok := true;
    }

    /** The truncate loop, after the statements `base`: every table exists, so only a
        failing statement stops it. */
    method TruncateTables(ghost h0: seq<Statement>, ghost t0: Contents, ghost base: seq<Statement>) returns (ok: bool)
      requires Sent(h0, t0, base) && forall j :: 0 <= j < |Tables| ==> Tables[j].name in tables
      modifies this
      ensures ok <==> NoFault(faultAt, |h0|, |base| + |Tables|)
      ensures ok ==> Sent(h0, t0, base + TruncateStatements())
      ensures !ok ==> (tables == committed == t0 && |h0| + |base| <= faultAt.value < |h0| + |base| + |Tables| &&
                       history == h0 + base + TruncateStatements()[..faultAt.value - |h0| - |base| + 1])
    {
      ghost var us := TruncateStatements();
      ghost var sent := base;
      for i := 0 to |Tables|
        invariant Sent(h0, t0, sent) && sent == base + us[..i]
        invariant forall j :: 0 <= j < |Tables| ==> Tables[j].name in tables
      {
        PrefixSnoc(us, i);
        ghost var before := tables;
        ok := Step(Truncate(Tables[i].name), h0, t0, sent);
        if !ok {
          assert history == h0 + base + us[..i + 1];
          return;
        }
        ApplyChangesOnlyItsTable(before, Truncate(Tables[i].name));
        sent := sent + [Truncate(Tables[i].name)];
      }
      assert us[..|Tables|] == us;
      ok := true;
    }

    /** Where the writes stand once the stage `st` is over: with no failing statement
        among them, its writes took effect, or its exception was raised and the connection
        rolled back; otherwise the failing statement is the last one sent. */
    ghost predicate Finished(h0: seq<Statement>, t0: Contents, base: seq<Statement>, st: Stage,
                             r: Result<(), LoadError>)
      reads this
    {
      if NoFault(faultAt, |h0|, |base| + |st.writes|) then
        && (r.Ok? <==> st.failure.None?)
        && (st.failure.None? ==> Sent(h0, t0, base + st.writes))
        && (st.failure.Some? ==> r == Err(st.failure.value) && history == h0 + base + st.writes &&
                                 tables == committed == t0)
      else
        && r == Err(DatabaseError(faultAt.value)) && tables == committed == t0
        && |h0| + |base| <= faultAt.value
        && history == h0 + base + st.writes[..faultAt.value - |h0| - |base| + 1]
    }

    /** A write stage that has stopped stays stopped: the later steps send nothing. */
    lemma FinishedStays(h0: seq<Statement>, t0: Contents, base: seq<Statement>, st: Stage, fin: Stage,
                        r: Result<(), LoadError>)
      requires Finished(h0, t0, base, st, r) && r.Err?
      requires st.writes <= fin.writes && (st.failure.Some? ==> fin == st)
      ensures Finished(h0, t0, base, fin, r)
    {
      if st.failure.None? {
        var k := faultAt.value - |h0| - |base| + 1;
        assert fin.writes[..k] == st.writes[..k];
      }
    }

    lemma FinishedOk(h0: seq<Statement>, t0: Contents, base: seq<Statement>, st: Stage, r: Result<(), LoadError>)
      requires Finished(h0, t0, base, st, r) && r.Ok?
      ensures st.failure.None? && Sent(h0, t0, base + st.writes)
    {
    }

    /** One `to_sql` write of the load, after the steps of `st`: computing the frame may
        raise, the write may fail; either way the connection rolls back. */
    method Write(table: string, f: Result<Frame, LoadError>, ghost h0: seq<Statement>, ghost t0: Contents,
                 ghost base: seq<Statement>, ghost st: Stage) returns (r: Result<(), LoadError>)
      requires st.failure.None? && Sent(h0, t0, base + st.writes)
      modifies this
      ensures Finished(h0, t0, base, Then(st, table, f), r)
    {
      if f.Err? {
        Rollback();
        return Err(f.error);
      }
      var ok := Step(Replace(table, f.value), h0, t0, base + st.writes);
      assert base + st.writes + [Replace(table, f.value)] == base + (st.writes + [Replace(table, f.value)]);
      if !ok {
        var next := st.writes + [Replace(table, f.value)];
        assert next[..|st.writes| + 1] == next;
        return Err(DatabaseError(|history| - 1));
      }
      r := Ok(());
    }

    /** The five `to_sql` writes after the setup. */
    method WriteAll(cleaned: Frame, dimDateCsv: Frame, ghost h0: seq<Statement>, ghost t0: Contents,
                    ghost base: seq<Statement>) returns (r: Result<(), LoadError>)
      requires Sent(h0, t0, base)
      modifies this
      ensures Finished(h0, t0, base, WriteStage(cleaned, dimDateCsv), r)
    {
      ghost var fin := WriteStage(cleaned, dimDateCsv);
      ghost var s0 := Stage([], None);
      assert base + s0.writes == base;
      var employee := Project(cleaned, EmployeeColumns);
      ghost var s1 := Then(s0, "Dim_Employee", employee);
      ghost var s2 := Then(s1, "Dim_Agency", Project(cleaned, AgencyColumns));
      ghost var s3 := Then(s2, "Dim_PayBasis", Project(cleaned, PayBasisColumns));
      ghost var s4 := Then(s3, "Dim_Date", ReadCsv(dimDateCsv));
      assert fin == Then(s4, "FactPayroll", FactFrom(cleaned, ReadCsv(dimDateCsv)));
      r := Write("Dim_Employee", employee, h0, t0, base, s0);
      if r.Err? {
        FinishedStays(h0, t0, base, s1, fin, r);
        return;
      }
      var agency := Project(cleaned, AgencyColumns);
      r := Write("Dim_Agency", agency, h0, t0, base, s1);
      if r.Err? {
        FinishedStays(h0, t0, base, s2, fin, r);
        return;
      }
      var payBasis := Project(cleaned, PayBasisColumns);
      r := Write("Dim_PayBasis", payBasis, h0, t0, base, s2);
      if r.Err? {
        FinishedStays(h0, t0, base, s3, fin, r);
        return;
      }
      var dimDate := ReadCsv(dimDateCsv);
      r := Write("Dim_Date", dimDate, h0, t0, base, s3);
      if r.Err? {
        FinishedStays(h0, t0, base, s4, fin, r);
        return;
      }
      var fact := FactPayroll(cleaned, dimDate.value);
      assert fact == FactFrom(cleaned, dimDate);
      r := Write("FactPayroll", fact, h0, t0, base, s4);
    }
  }
}
