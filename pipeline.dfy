/** The orchestrator: extract, transform and load run strictly in order;
    the first failure ends the run in `Failed` with exit status 1. */
module Pipeline {
  import opened Wrappers
  import opened Tables
  import opened Validate
  import opened Environment
  import opened Transform
  import opened Load
  import opened Extract
  import opened Paths

  datatype Stage = Extracting | Transforming | Loading | Done | Failed(error: EtlError)

  /** A stage invocation with the arguments it received. */
  datatype StageCall =
    | ExtractCall(fileId: string)
    | TransformCall(path: string)
    | LoadCall(data: Table, tableName: string, maxRows: int)

  predicate Terminal(s: Stage)
  {
    s.Done? || s.Failed?
  }

  /** One transition: an active stage that passes moves to the next one,
      one that fails moves to `Failed` with its error. */
  function Step(s: Stage, o: Outcome<EtlError>): (r: Stage)
    ensures Terminal(s) ==> r == s
    ensures !Terminal(s) ==> (r.Failed? <==> o.Fail?)
    ensures !Terminal(s) && o.Fail? ==> r == Failed(o.error)
    ensures r == Done <==> s == Done || (s == Loading && o.Pass?)
    ensures s == Extracting && o.Pass? ==> r == Transforming
    ensures s == Transforming && o.Pass? ==> r == Loading
  {
    match s
    case Extracting => if o.Pass? then Transforming else Failed(o.error)
    case Transforming => if o.Pass? then Loading else Failed(o.error)
    case Loading => if o.Pass? then Done else Failed(o.error)
    case Done => s
    case Failed(_) => s
  }

  /** The stage reached from `Extracting` after the given stage outcomes. */
  function Run(outcomes: seq<Outcome<EtlError>>): (r: Stage)
    ensures !Terminal(r) ==> |outcomes| <= 2 && r == Active(|outcomes|)
    ensures !Terminal(r) ==> forall m :: 0 <= m < |outcomes| ==> outcomes[m].Pass?
    ensures r == Done ==> |outcomes| >= 3
    ensures r.Failed? ==> exists m :: 0 <= m < |outcomes| && outcomes[m] == Fail(r.error)
  {
    if |outcomes| == 0 then Extracting
    else Step(Run(outcomes[..|outcomes| - 1]), outcomes[|outcomes| - 1])
  }

  /** The active stage after `k` passing stages. */
  function Active(k: nat): Stage
    requires k <= 3
  {
    [Extracting, Transforming, Loading, Done][k]
  }

  /** Once the run is over, later outcomes change nothing: there is no
      retry and no resume. */
  lemma {:induction false} TerminalIsFinal(a: seq<Outcome<EtlError>>, b: seq<Outcome<EtlError>>)
    requires Terminal(Run(a))
    ensures Run(a + b) == Run(a)
    decreases |b|
  {
    if |b| > 0 {
      assert (a + b)[..|a + b| - 1] == a + b[..|b| - 1];
      TerminalIsFinal(a, b[..|b| - 1]);
    } else {
      assert a + b == a;
    }
  }

  /** Stages that pass advance one step each. */
  lemma {:induction false} PassingPrefix(o: seq<Outcome<EtlError>>, k: nat)
    requires k <= 3 && k <= |o|
    requires forall m :: 0 <= m < k ==> o[m].Pass?
    ensures Run(o[..k]) == Active(k)
  {
    if k > 0 {
      assert o[..k][..k - 1] == o[..k - 1];
      PassingPrefix(o, k - 1);
    }
  }

  /** The run ends in `Done` exactly when extract, transform and load all
      pass. */
  lemma RunDone(o: seq<Outcome<EtlError>>)
    requires |o| <= 3
    ensures Run(o) == Done <==> |o| == 3 && o[0].Pass? && o[1].Pass? && o[2].Pass?
  {
    if |o| == 3 && o[0].Pass? && o[1].Pass? && o[2].Pass? {
      PassingPrefix(o, 3);
      assert o[..3] == o;
    } else {
      var k := FirstNonPass(o);
      if k < |o| {
        RunFails(o, k);
      } else {
        PassingPrefix(o, |o|);
        assert o[..|o|] == o;
      }
    }
  }

  /** Index of the first failing outcome, or `|o|` when none fails. */
  function FirstNonPass(o: seq<Outcome<EtlError>>): (k: nat)
    ensures k <= |o|
    ensures forall m :: 0 <= m < k ==> o[m].Pass?
    ensures k < |o| ==> o[k].Fail?
  {
    if |o| == 0 || o[0].Fail? then 0 else 1 + FirstNonPass(o[1..])
  }

  /** The first failing stage decides the run: it ends `Failed` with that
      stage's error, and nothing after it counts. */
  lemma RunFails(o: seq<Outcome<EtlError>>, k: nat)
    requires k < |o| && k < 3
    requires forall m :: 0 <= m < k ==> o[m].Pass?
    requires o[k].Fail?
    ensures Run(o) == Failed(o[k].error)
  {
    PassingPrefix(o, k);
    assert o[..k + 1][..k] == o[..k];
    assert Run(o[..k + 1]) == Failed(o[k].error);
    TerminalIsFinal(o[..k + 1], o[k + 1..]);
    assert o[..k + 1] + o[k + 1..] == o;
  }

  /** `sys.exit(1)` after a failure; a normal return otherwise. */
  function ExitStatus(s: Stage): (code: int)
    requires Terminal(s)
    ensures code == 0 <==> s == Done
    ensures code == 0 || code == 1
  {
    if s.Failed? then 1 else 0
  }

  /** The raw file path extract returns when called with its defaults. */
  function RawPath(): string
  {
    JoinPath(RawOutputDir, RawFileName)
  }

  /** The columnar file path load writes with its defaults. */
  function ParquetPath(): string
  {
    JoinPath(DefaultOutputDir, ParquetFileName)
  }

  /** What a run does: each invoked stage's outcome and arguments, and the
      external calls made, in order. */
  datatype Trace = Trace(outcomes: seq<Outcome<EtlError>>, calls: seq<StageCall>, effects: seq<Effect>)

  /** The transform and load stages, once extract has left `raw` at `rawPath`. */
  function AfterExtract(raw: Table, rawPath: string, writable: set<string>, db: DbOutcome,
                        tableName: string, maxRows: int, p: Parsers): (r: Trace)
    requires WellFormed(raw)
    ensures 1 <= |r.outcomes| == |r.calls| <= 2 && r.calls[0] == TransformCall(rawPath)
    ensures r.outcomes[0].Pass? <==> Transformed(raw, p).Success?
    ensures |r.outcomes| == 2 <==> Transformed(raw, p).Success?
    ensures |r.calls| == 2 ==> r.calls[1] == LoadCall(Transformed(raw, p).value, tableName, maxRows)
    ensures |r.effects| >= 1 && r.effects[0] == FileRead(rawPath, true)
  {
    match Transformed(raw, p)
    case Failure(e) => Trace([Fail(Invalid(e))], [TransformCall(rawPath)], [FileRead(rawPath, true)])
    case Success(t) =>
      var fileOk := ParquetPath() in writable;
      Trace([Pass, if fileOk then Pass else Fail(WriteError(ParquetPath()))],
            [TransformCall(rawPath), LoadCall(t, tableName, maxRows)],
            [FileRead(rawPath, true)] + LoadEffects(t, tableName, maxRows, ParquetPath(), fileOk, db))
  }

  /** The whole run in a given environment. */
  function Planned(remote: map<string, Table>, writable: set<string>, db: DbOutcome,
                   fileId: string, tableName: string, maxRows: int, p: Parsers): (r: Trace)
    requires AllFrames(remote)
    ensures 1 <= |r.outcomes| == |r.calls| <= 3 && r.calls[0] == ExtractCall(fileId)
    ensures |r.calls| >= 2 ==> r.calls[1] == TransformCall(RawPath())
    ensures r.outcomes[0].Pass? <==> Extracted(remote, writable, fileId, RawOutputDir).Success?
    ensures |r.outcomes| >= 2 <==> Extracted(remote, writable, fileId, RawOutputDir).Success?
    ensures ExtractEffects(remote, writable, fileId, RawOutputDir) <= r.effects
  {
    var ex := Extracted(remote, writable, fileId, RawOutputDir);
    var first := ExtractEffects(remote, writable, fileId, RawOutputDir);
    if ex.Failure? then Trace([Fail(ex.error)], [ExtractCall(fileId)], first)
    else
      var rest := AfterExtract(ex.value, RawPath(), writable, db, tableName, maxRows, p);
      Trace([Pass] + rest.outcomes, [ExtractCall(fileId)] + rest.calls, first + rest.effects)
  }

  /** The files and database tables the World holds. */
  datatype Store = Store(files: map<string, Table>, tables: map<(string, string), Table>)

  /** What transform and load leave behind: the columnar file when it can
      be written, and the capped table when the database accepts it. */
  function AfterExtractStore(raw: Table, writable: set<string>, db: DbOutcome,
                             tableName: string, maxRows: int, p: Parsers, s: Store): Store
    requires WellFormed(raw)
  {
    match Transformed(raw, p)
    case Failure(_) => s
    case Success(t) =>
      if ParquetPath() !in writable then s
      else Store(s.files[ParquetPath() := t],
                 if db == Replaced then s.tables[(DbSchema, tableName) := Head(t, maxRows)] else s.tables)
  }

  /** What the whole run leaves behind, starting from `s`. */
  function PlannedStore(remote: map<string, Table>, writable: set<string>, db: DbOutcome,
                        fileId: string, tableName: string, maxRows: int, p: Parsers, s: Store): Store
    requires AllFrames(remote)
  {
    var ex := Extracted(remote, writable, fileId, RawOutputDir);
    if ex.Failure? then s
    else AfterExtractStore(ex.value, writable, db, tableName, maxRows, p, Store(s.files[RawPath() := ex.value], s.tables))
  }

  /** The raw file path extract returns and the columnar file path load
      writes are different files. */
  lemma DistinctPaths()
    ensures RawPath() == "data/raw/raw_data.csv" && RawPath() != ParquetPath()
  {
    DefaultParquetPath();
    assert RawOutputDir[|RawOutputDir| - 1] == 'w' && RawFileName[0] == 'r';
    assert RawPath() == RawOutputDir + "/" + RawFileName;
    assert ParquetPath()[5] == 'p' != RawPath()[5];
  }

  /** What a run leaves behind. A failed extract changes nothing; after a
      passing extract the raw table is at the raw path. A run that ends in
      `Done` has written the transformed table to the columnar file and, when
      the database accepts the write, its first `maxRows` rows (with `head`
      semantics) to the target table; a run that does not end in `Done`
      leaves the database as it was, and only a written columnar file
      ends it in `Done`. */
  lemma PlannedEndState(remote: map<string, Table>, writable: set<string>, db: DbOutcome,
                        fileId: string, tableName: string, maxRows: int, p: Parsers, s: Store)
    requires AllFrames(remote)
    ensures var ex := Extracted(remote, writable, fileId, RawOutputDir);
      var e := PlannedStore(remote, writable, db, fileId, tableName, maxRows, p, s);
      && (ex.Failure? ==> e == s)
      && (ex.Success? ==> RawPath() in e.files && e.files[RawPath()] == ex.value)
    ensures var ex := Extracted(remote, writable, fileId, RawOutputDir);
      var e := PlannedStore(remote, writable, db, fileId, tableName, maxRows, p, s);
      var done := Run(Planned(remote, writable, db, fileId, tableName, maxRows, p).outcomes) == Done;
      && (done ==> ex.Success? && Transformed(ex.value, p).Success?
                   && ParquetPath() in e.files && e.files[ParquetPath()] == Transformed(ex.value, p).value
                   && (db == Replaced ==> (DbSchema, tableName) in e.tables
                                          && e.tables[(DbSchema, tableName)] == Head(Transformed(ex.value, p).value, maxRows)))
      && (!done || db != Replaced ==> e.tables == s.tables)
      && (!done ==> ParquetPath() in e.files ==> ParquetPath() in s.files && e.files[ParquetPath()] == s.files[ParquetPath()])
  {
    PlannedRun(remote, writable, db, fileId, tableName, maxRows, p);
    DistinctPaths();
  }

  /** Appending two pieces one after the other appends their concatenation. */
  lemma AppendTwo<T>(a: seq<T>, b: seq<T>, c: seq<T>)
    ensures a + b + c == a + (b + c)
  {
  }

  /** The stage a run ends in, from the three stages' outcomes. */
  lemma RunOfOutcomes(e: EtlError, f: EtlError, g: Outcome<EtlError>)
    ensures Run([Fail(e)]) == Failed(e)
    ensures Run([Pass, Fail(f)]) == Failed(f)
    ensures Run([Pass, Pass, g]) == if g.Pass? then Done else Failed(g.error)
  {
    assert [Pass, Fail(f)][..1] == [Pass];
    assert [Pass, Pass, g][..2] == [Pass, Pass];
    assert [Pass, Pass, g][..2][..1] == [Pass];
  }

  /** After a passing extract, a failed transform ends the run with the
      validation error; otherwise the table goes to load, whose file write
      decides the run. */
  lemma AfterExtractRun(raw: Table, rawPath: string, writable: set<string>, db: DbOutcome,
                        tableName: string, maxRows: int, p: Parsers)
    requires WellFormed(raw)
    ensures var rest := AfterExtract(raw, rawPath, writable, db, tableName, maxRows, p);
      && 1 <= |rest.calls| == |rest.outcomes| <= 2 && rest.calls[0] == TransformCall(rawPath)
      && match Transformed(raw, p)
         case Failure(e) => Run([Pass] + rest.outcomes) == Failed(Invalid(e)) && |rest.calls| == 1
         case Success(t) =>
           && rest.calls == [TransformCall(rawPath), LoadCall(t, tableName, maxRows)]
           && Run([Pass] + rest.outcomes) == if ParquetPath() in writable then Done else Failed(WriteError(ParquetPath()))
  {
    var rest := AfterExtract(raw, rawPath, writable, db, tableName, maxRows, p);
    match Transformed(raw, p)
    case Failure(e) =>
      assert [Pass] + rest.outcomes == [Pass, Fail(Invalid(e))];
      RunOfOutcomes(Invalid(e), Invalid(e), Pass);
    case Success(t) =>
      assert [Pass] + rest.outcomes == [Pass, Pass, rest.outcomes[1]];
      RunOfOutcomes(Invalid(EmptyDataset), Invalid(EmptyDataset), rest.outcomes[1]);
  }

  /** A run invokes the stages in order, each with the arguments the
      orchestrator passes, and stops at the first failure: a failed
      extract ends it with the extract's error, a failed transform with
      the validation error, and otherwise the load decides. It ends in
      `Done` exactly when all three stages pass. */
  lemma PlannedRun(remote: map<string, Table>, writable: set<string>, db: DbOutcome,
                   fileId: string, tableName: string, maxRows: int, p: Parsers)
    requires AllFrames(remote)
    ensures var plan := Planned(remote, writable, db, fileId, tableName, maxRows, p);
      && 1 <= |plan.calls| == |plan.outcomes| <= 3
      && plan.calls[0] == ExtractCall(fileId)
      && (|plan.calls| >= 2 ==> plan.calls[1] == TransformCall(RawPath()))
      && Terminal(Run(plan.outcomes))
    ensures var plan := Planned(remote, writable, db, fileId, tableName, maxRows, p);
      var ex := Extracted(remote, writable, fileId, RawOutputDir);
      && (ex.Failure? ==> Run(plan.outcomes) == Failed(ex.error) && |plan.calls| == 1)
      && (ex.Success? ==>
            match Transformed(ex.value, p)
            case Failure(e) => Run(plan.outcomes) == Failed(Invalid(e)) && |plan.calls| == 2
            case Success(t) =>
              && plan.calls == [ExtractCall(fileId), TransformCall(RawPath()), LoadCall(t, tableName, maxRows)]
              && Run(plan.outcomes) == if ParquetPath() in writable then Done else Failed(WriteError(ParquetPath())))
    ensures var plan := Planned(remote, writable, db, fileId, tableName, maxRows, p);
      var ex := Extracted(remote, writable, fileId, RawOutputDir);
      Run(plan.outcomes) == Done <==>
        ex.Success? && Transformed(ex.value, p).Success? && ParquetPath() in writable
  {
    var ex := Extracted(remote, writable, fileId, RawOutputDir);
    if ex.Failure? {
      RunOfOutcomes(ex.error, ex.error, Pass);
    } else {
      AfterExtractRun(ex.value, RawPath(), writable, db, tableName, maxRows, p);
    }
  }

  /** The transform and load stages of `run_etl`, once extract has left
      the raw table at `rawPath`. */
  method TransformAndLoad(w: World, rawPath: string, tableName: string, maxRows: int, p: Parsers)
    returns (outcomes: seq<Outcome<EtlError>>, calls: seq<StageCall>)
    requires w.HoldsFrames() && rawPath in w.files
    modifies w
    ensures w.HoldsFrames()
    ensures var rest := AfterExtract(old(w.files)[rawPath], rawPath, w.writable, w.DbOutcomeHere(), tableName, maxRows, p);
      outcomes == rest.outcomes && calls == rest.calls && w.log == old(w.log) + rest.effects
    ensures Store(w.files, w.dbTables)
         == AfterExtractStore(old(w.files)[rawPath], w.writable, w.DbOutcomeHere(), tableName, maxRows, p,
                              Store(old(w.files), old(w.dbTables)))
  {
    ghost var tr := Transformed(w.files[rawPath], p);
    calls := [TransformCall(rawPath)];
    var transformed := TransformData(w, rawPath, p);
    if transformed.Failure? {
      outcomes := [Fail(transformed.error)];
      return;
    }
    assert tr == Success(transformed.value);
    EarlierChecksImplyLoadedCheck(transformed.value);
    calls := calls + [LoadCall(transformed.value, tableName, maxRows)];
    var loaded := LoadData(w, transformed.value, tableName, maxRows, DefaultOutputDir);
    outcomes := [Pass, loaded];
  }

  /** `run_etl`: the three stages under one error handler. `outcomes` holds
      each invoked stage's outcome and `calls` its arguments; together with
      the external calls they are the run `Planned` describes. */
  method RunEtl(w: World, fileId: string, tableName: string, maxRows: int, p: Parsers)
    returns (stage: Stage, outcomes: seq<Outcome<EtlError>>, calls: seq<StageCall>, exitStatus: int)
    requires w.HoldsFrames()
    modifies w
    ensures w.HoldsFrames()
    ensures var plan := Planned(w.remote, w.writable, w.DbOutcomeHere(), fileId, tableName, maxRows, p);
      outcomes == plan.outcomes && calls == plan.calls && w.log == old(w.log) + plan.effects
    ensures Store(w.files, w.dbTables)
         == PlannedStore(w.remote, w.writable, w.DbOutcomeHere(), fileId, tableName, maxRows, p,
                         Store(old(w.files), old(w.dbTables)))
    ensures Terminal(stage) && stage == Run(outcomes) && exitStatus == ExitStatus(stage)
  {
    ghost var ex := Extracted(w.remote, w.writable, fileId, RawOutputDir);
    ghost var first := ExtractEffects(w.remote, w.writable, fileId, RawOutputDir);
    var extracted := ExtractData(w, fileId, RawOutputDir);
    if extracted.Failure? {
      outcomes, calls := [Fail(extracted.error)], [ExtractCall(fileId)];
    } else {
      ghost var after := AfterExtract(ex.value, RawPath(), w.writable, w.DbOutcomeHere(), tableName, maxRows, p);
      var rest, restCalls := TransformAndLoad(w, extracted.value, tableName, maxRows, p);
      outcomes, calls := [Pass] + rest, [ExtractCall(fileId)] + restCalls;
      AppendTwo(old(w.log), first, after.effects);
    }
    PlannedRun(w.remote, w.writable, w.DbOutcomeHere(), fileId, tableName, maxRows, p);
    stage := Run(outcomes);
    exitStatus := ExitStatus(stage);
  }

  // ---------------------------------------------------------------------
  // Command line.

  /** The options as the argument parser delivers them. */
  datatype CliArgs = CliArgs(fileId: Option<string>, table: Option<string>, maxRows: Option<int>)

  datatype RunConfig = RunConfig(fileId: string, tableName: string, maxRows: int)

  /** The argument parser's exit status for a usage error. */
  const UsageErrorStatus: int := 2

  /** `--file-id` is required; `--table` and `--max-rows` have defaults. */
  function ParseArgs(a: CliArgs): (r: Option<RunConfig>)
    ensures r.Some? <==> a.fileId.Some?
    ensures r.Some? ==> r.value.fileId == a.fileId.value
    ensures r.Some? ==> r.value.tableName == if a.table.Some? then a.table.value else "demidova"
    ensures r.Some? ==> r.value.maxRows == if a.maxRows.Some? then a.maxRows.value else 100
  {
    match a.fileId
    case None => None
    case Some(id) =>
      Some(RunConfig(id,
                     if a.table.Some? then a.table.value else DefaultTableName,
                     if a.maxRows.Some? then a.maxRows.value else DefaultMaxRows))
  }

  /** `main`: parse the options, then run the pipeline with them. */
  method RunCli(w: World, a: CliArgs, p: Parsers) returns (exitStatus: int)
    requires w.HoldsFrames()
    modifies w
    ensures a.fileId.None? ==>
              && exitStatus == UsageErrorStatus
              && w.log == old(w.log) && w.files == old(w.files) && w.dbTables == old(w.dbTables)
    ensures a.fileId.Some? ==>
              (var plan := Planned(w.remote, w.writable, w.DbOutcomeHere(), a.fileId.value,
                                   ParseArgs(a).value.tableName, ParseArgs(a).value.maxRows, p);
               && Terminal(Run(plan.outcomes))
               && exitStatus == ExitStatus(Run(plan.outcomes))
               && w.log == old(w.log) + plan.effects)
    ensures a.fileId.Some? ==>
              Store(w.files, w.dbTables) ==
                PlannedStore(w.remote, w.writable, w.DbOutcomeHere(), a.fileId.value,
                             ParseArgs(a).value.tableName, ParseArgs(a).value.maxRows, p,
                             Store(old(w.files), old(w.dbTables)))
  {
    var config := ParseArgs(a);
    if config.None? {
      return UsageErrorStatus;
    }
    var c := config.value;
    var stage, outcomes, calls;
    stage, outcomes, calls, exitStatus := RunEtl(w, c.fileId, c.tableName, c.maxRows, p);
  }
}
