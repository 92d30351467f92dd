/** `main` (main.py): extract, transform, load, then the stored aggregation procedure, each
    stage run once and in order, every exception logged and re-raised. */
module Pipeline {
  import opened Wrappers
  import opened Frames
  import opened Payroll
  import opened DimDate
  import opened Transform
  import opened Facts
  import opened Loader

  const RawDataPath: string := "Dataset/Raw_payroll_Data/nycpayroll_2020.csv"
  const AggregatesProcedure: string := "\"STG\".PAYROLL_AGGREGATES"

  /** What the run finds on disk: whether the raw file is there after the extract step and
      what it holds, how `to_datetime` reads a date string, and whether both files the
      transform writes are there afterwards. */
  datatype Environment = Environment(
    rawFileExists: bool,
    raw: seq<RawRecord>,
    parse: string -> Option<Timestamp>,
    outputsExist: bool)

  /** The exception `main` re-raises. */
  datatype PipelineError =
    | FileNotFound(message: string)
    | TransformFailed(transformError: TransformError)
    | LoadFailed(loadError: LoadError)
    | ProcedureFailed(statement: nat)

  const RawMissing: PipelineError := FileNotFound("File not found: " + RawDataPath)
  const OutputsMissing: PipelineError := FileNotFound("Files not found: transformed_data_path or dim_date_path")

  datatype Stage = ExtractStage | TransformStage | LoadStage

  /** The run's log, at the level of its stages. */
  datatype Event = Started(stage: Stage) | Done(stage: Stage) | ProcedureExecuted | Completed | Failed(error: PipelineError)

  /** The log of stages that ran to the end, in order. */
  function StagesDone(stages: seq<Stage>): (log: seq<Event>)
    ensures |log| == 2 * |stages|
    ensures forall k :: 0 <= k < |stages| ==> log[2 * k] == Started(stages[k]) && log[2 * k + 1] == Done(stages[k])
  {
    if |stages| == 0 then [] else StagesDone(stages[..|stages| - 1]) + [Started(stages[|stages| - 1]), Done(stages[|stages| - 1])]
  }

  /** Running stages `a` and then stages `b` logs the entries of `a`, then those of `b`. */
  lemma {:induction false} StagesDoneAppend(a: seq<Stage>, b: seq<Stage>)
    ensures StagesDone(a + b) == StagesDone(a) + StagesDone(b)
  {
    if |b| == 0 {
      assert a + b == a;
    } else {
      var n := |b| - 1;
      assert (a + b)[..|a + b| - 1] == a + b[..n];
      assert (a + b)[|a + b| - 1] == b[n];
      StagesDoneAppend(a, b[..n]);
    }
  }

  /** The log of the extract and transform stages, in that order. */
  lemma FirstStagesDone()
    ensures StagesDone([ExtractStage]) == [Started(ExtractStage), Done(ExtractStage)]
    ensures StagesDone([ExtractStage, TransformStage]) ==
      StagesDone([ExtractStage]) + [Started(TransformStage), Done(TransformStage)]
  {
    StagesDoneAppend([ExtractStage], [TransformStage]);
    assert [ExtractStage] + [TransformStage] == [ExtractStage, TransformStage];
  }

  /** The files the load reads: the cleaned records and the date dimension, as written by
      the transform. */
  function CleanedFile(out: Cleaned): Frame {
    CleanedFrame(out.records)
  }

  function DimDateFile(out: Cleaned): Frame {
    DateFrame(out.dimDate)
  }

  /** What the load stage and the procedure call leave behind, after a log `prefix`, for a
      warehouse whose history was `h0` and committed tables `c0` before the plan `p` ran.
      A failed load has sent the plan up to the failing statement and committed nothing;
      a complete load has committed the replayed plan, and the procedure call follows it. */
  ghost predicate LoadedAndAggregated(w: Warehouse, h0: seq<Statement>, c0: Contents, p: Plan,
                                      prefix: seq<Event>, r: Result<(), PipelineError>, log: seq<Event>)
    reads w
  {
    var lr := LoadResult(w.faultAt, |h0|, p);
    && (lr.Err? ==>
          r == Err(LoadFailed(lr.error)) && log == prefix + [Started(LoadStage), Failed(LoadFailed(lr.error))] &&
          w.history == h0 + LoadSent(w.faultAt, |h0|, p) && w.committed == c0)
    && (lr.Ok? ==>
          w.history == h0 + p.stmts + [CallProcedure(AggregatesProcedure)] &&
          w.committed == Replay(c0, p.stmts) &&
          (r.Ok? <==> w.faultAt != Some(|h0| + |p.stmts|)) &&
          (r.Ok? ==> log == prefix + [Started(LoadStage), Done(LoadStage)] + [ProcedureExecuted, Completed]) &&
          (r.Err? ==> r == Err(ProcedureFailed(|h0| + |p.stmts|)) &&
                      log == prefix + [Started(LoadStage), Done(LoadStage)] + [Failed(r.error)]))
  }

  /** The load, then `CALL "STG".PAYROLL_AGGREGATES()` on a fresh connection, with the log
      entries they add. */
  method LoadAndAggregate(w: Warehouse, cleanedCsv: Frame, dimDateCsv: Frame, prefix: seq<Event>)
    returns (r: Result<(), PipelineError>, log: seq<Event>)
    requires w.Idle()
    modifies w
    ensures w.Idle()
    ensures LoadedAndAggregated(w, old(w.history), old(w.committed), LoadPlan(cleanedCsv, dimDateCsv), prefix, r, log)
  {
    ghost var h0 := w.history;
    ghost var c0 := w.committed;
    var loaded := w.Load(cleanedCsv, dimDateCsv);
    r, log := Aggregate(w, h0, c0, LoadPlan(cleanedCsv, dimDateCsv), loaded, prefix);
  }

  /** After the load: its exception is re-raised, or the procedure is called. */
  method Aggregate(w: Warehouse, ghost h0: seq<Statement>, ghost c0: Contents, ghost p: Plan,
                   loaded: Result<(), LoadError>, prefix: seq<Event>)
    returns (r: Result<(), PipelineError>, log: seq<Event>)
    requires w.Loaded(h0, c0, p, loaded)
    modifies w
    ensures w.Idle()
    ensures LoadedAndAggregated(w, h0, c0, p, prefix, r, log)
  {
    if loaded.Err? {
      r := Err(LoadFailed(loaded.error));
      log := prefix + [Started(LoadStage), Failed(r.error)];
      return;
    }
    log := prefix + [Started(LoadStage), Done(LoadStage)];
    var called := w.Execute(CallProcedure(AggregatesProcedure));
    w.Rollback();
    if !called {
      r := Err(ProcedureFailed(|w.history| - 1));
      log := log + [Failed(r.error)];
      return;
    }
    r := Ok(());
    log := log + [ProcedureExecuted, Completed];
  }

  /** `main`. A missing raw file stops the run before the warehouse is touched; so does a
      transform exception or a missing output of the transform. A load failure leaves the
      committed tables as they were; a failure of the procedure call comes after the
      commit and leaves the loaded tables in place. `Completed` is logged exactly when
      every stage succeeded. */
  method RunPipeline(w: Warehouse, env: Environment) returns (r: Result<(), PipelineError>, log: seq<Event>)
    requires w.Idle()
    modifies w
    ensures w.Idle()
    ensures !env.rawFileExists ==>
      r == Err(RawMissing) && log == StagesDone([ExtractStage]) + [Failed(RawMissing)] &&
      w.history == old(w.history) && w.committed == old(w.committed)
    ensures env.rawFileExists && TransformData(env.raw, env.parse).Err? ==>
      var e := TransformFailed(TransformData(env.raw, env.parse).error);
      r == Err(e) && log == StagesDone([ExtractStage]) + [Started(TransformStage), Failed(e)] &&
      w.history == old(w.history) && w.committed == old(w.committed)
    ensures env.rawFileExists && TransformData(env.raw, env.parse).Ok? && !env.outputsExist ==>
      r == Err(OutputsMissing) && log == StagesDone([ExtractStage, TransformStage]) + [Failed(OutputsMissing)] &&
      w.history == old(w.history) && w.committed == old(w.committed)
    ensures env.rawFileExists && TransformData(env.raw, env.parse).Ok? && env.outputsExist ==>
      var out := TransformData(env.raw, env.parse).value;
      LoadedAndAggregated(w, old(w.history), old(w.committed), LoadPlan(CleanedFile(out), DimDateFile(out)),
                          StagesDone([ExtractStage, TransformStage]), r, log)
  {
    FirstStagesDone();
    log := [Started(ExtractStage), Done(ExtractStage)];
    if !env.rawFileExists {
      r := Err(RawMissing);
      log := log + [Failed(r.error)];
      return;
    }
    var transformed := TransformData(env.raw, env.parse);
    if transformed.Err? {
      r := Err(TransformFailed(transformed.error));
      log := log + [Started(TransformStage), Failed(r.error)];
      return;
    }
    var out := transformed.value;
    log := log + [Started(TransformStage), Done(TransformStage)];
    if !env.outputsExist {
      r := Err(OutputsMissing);
      log := log + [Failed(r.error)];
      return;
    }
    r, log := LoadAndAggregate(w, CleanedFile(out), DimDateFile(out), log);
  }
}
