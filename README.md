# ETL pipeline for job-posting data — a Dafny model

The pipeline downloads a CSV export of job postings, checks it, and saves it as
`data/raw/raw_data.csv` (extract). It then reads that file back, coerces the
column types from a fixed schema, removes exact duplicate rows and checks the
result (transform). Finally it checks the table again, writes it to
`data/processed/processed_data.parquet`, and writes its first `max_rows` rows,
with `head` semantics (a negative value drops that many rows from the end), to
the PostgreSQL table `public.<table>`, replacing that table (load).

Three details shape the model:

- A database failure is reported and swallowed.
- Errors from the three checks, the download, reading the raw file back and the
  file writes end the run with exit status 1.
- The command line takes a required `--file-id` and optional `--table`
  (default `demidova`) and `--max-rows` (default 100).

## Files

- `tables.dfy` defines the `Option`, `Result` and `Outcome` wrappers (module
  `Wrappers`) and the table (module `Tables`):
  - a data frame is column labels, one dtype per column, and rows of optional
    cell values (`None` is a missing cell);
  - `WellFormed` says a frame is rectangular with unique column labels;
  - `IsEmpty` is the frame's `empty` flag;
  - it also counts missing cells.
- `validate.dfy` holds the three checks (module `Validate`).
- `paths.dfy` holds `os.path.join` for the stages that write files (module `Paths`).
- `world.dfy` models everything outside the process (module `Environment`):
  - class `World` holds the files on disk, the database tables, and a log of
    every external call;
  - constant fields fix what a download returns, which paths are writable,
    whether a credentials row exists, and whether the database accepts a write.
- `extract.dfy`, `transform.dfy` and `load.dfy` model the three stages.
  - Each stage is a method over a `World`.
  - Each is specified by pure functions: `Extracted`, `Transformed`,
    `LoadEffects`, and so on.
  - The transform's column loops and its duplicate removal are methods with
    loop invariants. They are proved equal to the functions `CoerceEach` and
    `FirstOccurrences`.
- `pipeline.dfy` covers the orchestrator and the command line:
  - the orchestrator is a stage machine (`Step`, `Run`);
  - `RunEtl` is proved to produce the run described by the function `Planned`,
    and to leave the files and database tables `PlannedStore` describes;
  - `RunCli` adds the argument defaults and the usage error.

The dataframe library's conversions are the three abstract functions of
`Parsers`. `toNumeric` and `toDatetime` return `None` for a value they cannot
parse, which is what `errors="coerce"` means.

## Model

| member | source | states |
|---|---|---|
| Tables.IndexOf | etl/transform.py:44-45 | The position found holds the requested label, and no earlier position does. |
| Tables.MissingInRow | etl/validate.py:57 | A row's missing count is at most its width. It is zero exactly when every cell is present. |
| Tables.MissingCellsZero | etl/validate.py:57 | A table has no missing cell exactly when none of its rows has one. |
| Tables.MissingCellsBound | etl/validate.py:56-57 | A table's missing-cell count never exceeds rows × columns. |
| Tables.MissingCellsBoundRows | etl/validate.py:56-57 | Rows that all have the same width have at most rows × width missing cells, counted row by row. |
| Validate.TooManyMissing | etl/validate.py:58-62 | The threshold test holds exactly when more than half of the cells are missing. |
| Validate.AbsentColumns | etl/validate.py:27-28 | A label is reported exactly when it is required and missing from the frame's columns. |
| Validate.ValidateRaw | etl/validate.py:19-31 | Fails exactly when the frame is empty or has fewer than 10 rows. The error says which check failed and carries the row count. On success the value lists exactly the absent required columns, which are only a warning. |
| Validate.ValidateTransformed | etl/validate.py:48-63 | Fails exactly when the frame is empty or more than half of its cells are missing. The error is EmptyDataset or carries the missing and total cell counts. |
| Validate.ValidateLoaded | etl/validate.py:76-77 | Fails exactly when the frame is empty, with EmptyDataset. |
| Validate.RawCheckIgnoresColumnLabels | etl/validate.py:19-24 | Whether the raw check passes depends only on the row count and on whether there are columns. Column labels never matter. |
| Validate.MissingBoundary | etl/validate.py:56-63 | Exactly 50% missing passes; anything above fails. The missing count is bounded by the cell count. |
| Validate.EarlierChecksImplyLoadedCheck | etl/validate.py:76-77 | A frame that passed the raw or the transformed check also passes the pre-load check. |
| Environment.World.DbOutcomeHere | etl/load.py:51-80 | A database write succeeds exactly when a credentials row exists and the database is reachable. |
| Environment.World.Fetch | etl/extract.py:34-41 | Returns the remote table for a known URL and nothing otherwise. Logs the call. |
| Environment.World.WriteFile | etl/load.py:28 | Succeeds exactly for writable paths. Only then is the file replaced by the table. Logs the call. |
| Environment.World.ReadFile | etl/transform.py:31 | Returns the stored table if the file exists. Logs the call. |
| Environment.World.ReplaceTable | etl/load.py:67-73 | On success the table `schema.name` is replaced by the data, and otherwise nothing changes. Logs the outcome. |
| Transform.ConvertCell | etl/transform.py:44-59 | A missing cell stays missing, and a category cast keeps the value. |
| Transform.CoerceColumn | etl/transform.py:44-45 | Replacing one column keeps the frame rectangular, with the same labels and the same row count. |
| Transform.CoerceIfPresent | etl/transform.py:44-45 | Shape is preserved: the frame stays rectangular with the same labels and row count. That an absent label changes nothing is stated by `CoerceIfPresentAt`. |
| Transform.CoerceEach | etl/transform.py:43-45 | Shape is preserved by the loop over a list of labels. |
| Transform.Coerced | etl/transform.py:38-59 | Shape is preserved by the whole type-coercion step. |
| Transform.ColumnListsFacts | etl/transform.py:38-48 | The schema's lists have no repeats. `salary` and `date_added` are in neither list. Every category column except `has_expired` is also a text column. |
| Transform.CoerceIfPresentAt | etl/transform.py:44-45 | Coercing one label changes exactly that column's dtype and cells. |
| Transform.CoerceEachAt | etl/transform.py:43-45 | Coercing a list of distinct labels changes exactly the listed columns, each once. |
| Transform.CoercedFollowsSchema | etl/transform.py:38-59 | The loops yield, for every column and cell, the declared schema. Category beats string. `salary` becomes numeric and `date_added` a datetime. Other columns are unchanged. |
| Transform.CoercedRows | etl/transform.py:38-59 | Coercion works row by row: each result row is the schema applied to the same input row. |
| Transform.CategoryCastWins | etl/transform.py:38-51 | `job_type` and `sector` end as categories holding their text renderings. |
| Transform.UnlistedColumnUnchanged | etl/transform.py:38-59 | A column outside the schema keeps its dtype and every cell. |
| Transform.UnparseableBecomesMissing | etl/transform.py:54-59 | `salary` and `date_added` take the numeric and datetime dtypes. A present value the parser rejects becomes missing. |
| Transform.FirstOccurrences | etl/transform.py:66 | Duplicate removal never lengthens the rows. |
| Transform.FirstIndices | etl/transform.py:66 | The first-occurrence positions are valid row indices. |
| Transform.FirstOccurrencesElements | etl/transform.py:66 | Duplicate removal keeps exactly the set of distinct rows. |
| Transform.FirstOccurrencesNoDuplicates | etl/transform.py:66 | No row remains twice after duplicate removal. |
| Transform.FirstOccurrencesWidth | etl/transform.py:66 | Duplicate removal keeps every row's width. |
| Transform.FirstOccurrencesOfDistinct | etl/transform.py:66 | Rows without duplicates come back unchanged. |
| Transform.FirstOccurrencesIdempotent | etl/transform.py:66 | Removing duplicates twice is the same as removing them once. |
| Transform.FirstIndicesSelect | etl/transform.py:66 | The result consists of the input rows at the first-occurrence positions, in order. |
| Transform.FirstIndicesAscending | etl/transform.py:66 | The kept positions ascend, so the original row order is preserved. |
| Transform.FirstIndexMember | etl/transform.py:66 | A position is kept exactly when its row does not appear earlier. |
| Transform.FirstIndicesMembership | etl/transform.py:66 | The same, for all positions at once. |
| Transform.FirstOccurrencesAreFirst | etl/transform.py:66 | The result is the input restricted to the first occurrences, in ascending order, and kept exactly when the row is new. |
| Transform.DropLaterCopy | etl/transform.py:66 | Removing the later of two equal rows does not change the result: the earlier copy is the one kept. |
| Transform.OneDuplicatePair | etl/transform.py:65-67 | With exactly one duplicate pair, the result is the input without its later copy, and one row is removed. |
| Transform.DropDuplicates | etl/transform.py:65-67 | Keeps the first occurrences in order, with no duplicates and the same distinct rows. The removed count is the difference in lengths. |
| Transform.CoerceColumns | etl/transform.py:43-45 | The `for col in cols: if col in df.columns` loop computes `CoerceEach`. |
| Transform.Deduplicated | etl/transform.py:66 | The deduplicated frame is rectangular, has the same columns, and has no duplicate rows. |
| Transform.Transformed | etl/transform.py:38-77 | On success the frame is rectangular, keeps the input's column labels, has no more rows than the input, has no duplicate rows and passes the check. A failure is only EmptyDataset or ExcessiveMissingness. |
| Transform.TransformTable | etl/transform.py:38-77 | Computes `Transformed`: coercion, then duplicate removal, then the check. On success the frame is rectangular, keeps the input's column labels, has no duplicate rows and passes the check. A failure is only EmptyDataset or ExcessiveMissingness. |
| Transform.TransformData | etl/transform.py:10-81 | A missing input file raises a read error. Otherwise the result is the transform of the stored table, with validation errors propagated. Files and database are untouched. One read is logged. |
| Transform.UnparseableSalariesCollapse | etl/transform.py:54-66 | Two rows that differ only in unparseable salaries become equal, and one of them is dropped. |
| Transform.CoercedSettled | etl/transform.py:38-59 | A frame already in the declared schema is left unchanged by coercion. |
| Transform.CoercedTypes | etl/transform.py:38-59 | The declared dtypes hold even for a frame without rows. |
| Transform.CoercedTypesIgnoreRows | etl/transform.py:38-51 | The resulting dtypes depend only on the labels and the old dtypes. |
| Transform.CoerceEachTypesIgnoreRows | etl/transform.py:43-45 | The same, for one coercion loop. |
| Transform.CoercedIsSettled | etl/transform.py:38-59 | With stable conversions, a coerced frame is in the declared schema. |
| Transform.DeduplicatedSettled | etl/transform.py:66 | Duplicate removal keeps a frame in the declared schema. |
| Transform.TransformIdempotent | etl/transform.py:38-77 | With stable conversions, transforming the transform's own output returns that output again. |
| Paths.JoinPath | etl/load.py:26 | An absolute second component wins. The result always ends with the second component. |
| Load.DefaultParquetPath | etl/load.py:12-26 | The default output is `data/processed/processed_data.parquet`. |
| Load.EngineUrl | etl/load.py:63 | The connection string starts with `postgresql+psycopg2://` and ends with `/homeworks`. |
| Load.HeadRows | etl/load.py:47 | `head(k)` returns a prefix of length `min(k, n)` for `k >= 0`, and `max(n + k, 0)` for negative `k`. |
| Load.Head | etl/load.py:47 | The capped frame keeps columns and dtypes, and its rows are a prefix of the original rows. |
| Load.HeadKeepsLeadingRows | etl/load.py:47 | For a non-negative cap, row `i` is kept exactly when `i < cap`, and then unchanged. |
| Load.HeadOfShortTable | etl/load.py:47 | A frame with at most `cap` rows is loaded whole. |
| Load.LoadToParquet | etl/load.py:12-31 | Writes the whole frame to `join(dir, filename)` and returns that path. An unwritable path raises a write error. The database is untouched. |
| Load.LoadToDatabase | etl/load.py:34-80 | Replaces `public.<table>` with the first `max_rows` rows exactly when credentials exist and the database is reachable. Every failure is swallowed. The data and columnar files are untouched. |
| Load.LoadEffects | etl/load.py:98-118 | An empty frame makes no external call. Otherwise the file write comes first. The one database write, of the capped rows, follows exactly when that write succeeded. |
| Load.LoadData | etl/load.py:83-118 | Returns the pre-load check's error for an empty frame and a write error for an unwritable path. Otherwise it passes, whatever the database did. States the new files, database tables and log. |
| Extract.DownloadUrl | etl/extract.py:29 | The URL is the fixed download prefix followed by the file id. |
| Extract.Extracted | etl/extract.py:29-59 | Success means the URL was known, the raw check passed and the raw path was writable. The value is the downloaded table. Failures come in that order: an unknown URL gives a fetch error, then a failing raw check gives its validation error, and only then an unwritable path gives a write error. |
| Extract.ExtractEffects | etl/extract.py:34-55 | The download is always the first call. A file write of the downloaded table to the raw path follows exactly when the download succeeded and passed the raw check. |
| Extract.ExtractData | etl/extract.py:10-59 | Returns the raw path or the first failure: download, raw check, then write. The saved file holds the downloaded table. States files, database tables and log. |
| Pipeline.Step | etl/main.py:25-41 | A passing stage advances to the next one (extract to transform, transform to load, load to `Done`) and a failing stage ends the run with its error. A finished run never changes. Only a passing load reaches `Done`. |
| Pipeline.TerminalIsFinal | etl/main.py:39-41 | After a failure, later outcomes change nothing: there is no retry and no resume. |
| Pipeline.PassingPrefix | etl/main.py:25-33 | `k` passing stages lead to the `k`-th next stage. |
| Pipeline.Run | etl/main.py:25-41 | A run that is not over has had at most two stages, all passing. `Done` needs all three stage outcomes. A failed run carries the error of one of its outcomes. |
| Pipeline.FirstNonPass | etl/main.py:25-41 | Finds the first failing outcome. Every outcome before it passed. |
| Pipeline.RunFails | etl/main.py:25-41 | The first failing stage decides the run's error. |
| Pipeline.RunDone | etl/main.py:25-37 | The run ends `Done` exactly when extract, transform and load all pass. |
| Pipeline.ExitStatus | etl/main.py:39-41 | The exit status is 0 exactly for a completed run, and 1 after a failure. |
| Pipeline.RunOfOutcomes | etl/main.py:25-41 | The final stage for failures at extract, at transform, and for a completed load. |
| Pipeline.AfterExtract | etl/main.py:29-33 | Transform is always called, on the raw path, and its read is the first external call. Load is called, with the transformed table, the table name and the row cap, exactly when the transform succeeds. |
| Pipeline.Planned | etl/main.py:25-33 | Extract is always called first, with the file id, and its external calls begin the run. The later stages are called exactly when extract succeeds, transform first and on the raw path. At most three stages are called. |
| Pipeline.DistinctPaths | etl/extract.py:10-55 | The raw file is `data/raw/raw_data.csv`, a different file from the columnar output. |
| Pipeline.PlannedEndState | etl/main.py:25-41 | A failed extract leaves files and database as they were; a passing one leaves the downloaded table at the raw path. A `Done` run leaves the transformed table in the columnar file and, when the database accepts it, the capped table in `public.<table>`. Any other run leaves the database and an existing columnar file unchanged. |
| Pipeline.AfterExtractRun | etl/main.py:30-41 | After a passing extract, a failed transform ends the run with its validation error. Otherwise load is called with the transformed table, and its file write decides the run. |
| Pipeline.PlannedRun | etl/main.py:25-41 | Stages are called in order with the orchestrator's arguments. The run stops at the first failure and ends terminal. It ends `Done` exactly when extract and transform succeed and the parquet path is writable. |
| Pipeline.TransformAndLoad | etl/main.py:29-33 | The transform and load calls do what `AfterExtract` describes: outcomes, calls and log. The files and database tables end as `AfterExtractStore` gives. |
| Pipeline.RunEtl | etl/main.py:12-41 | Produces the run `Planned` describes: the outcomes, the calls, and exactly the `Planned` external calls appended to the log. The files and database tables end as `PlannedStore` gives, so `PlannedEndState` applies. Ends in a terminal state, with the exit status of that state. |
| Pipeline.ParseArgs | etl/main.py:58-77 | Missing `--file-id` is rejected. Otherwise the options used are the given ones, or the `demidova` and 100 defaults. |
| Pipeline.RunCli | etl/main.py:44-86 | Without `--file-id` the exit status is 2, nothing is called and files and database are unchanged. Otherwise the planned run with the parsed options ends terminal, the exit status is that run's status, and the external calls, files and database tables are those of the planned run. |

## Left out

- Console output (`print`) is not modelled. Of the raw check's warning, only its value (the list of absent columns) is kept.
- CSV, Parquet and HTTP encodings are not modelled. A table written to a file reads back as the same table, and a download returns the table the environment's `remote` map gives for the URL. The CSV reader's options (`on_bad_lines="skip"` and the others) are folded into that map.
- The dataframe library's value parsing and rendering stay abstract in `Parsers`. The model fixes only that a missing value stays missing and that an unparseable value becomes missing.
- Validate.ValidateTransformed: compares `missing * 100 > 50 * cells` exactly, while the source compares a floating-point percentage. The two can differ only where rounding a huge cell count matters.
- Load.LoadToDatabase: `to_sql` failing partway through is modelled as leaving the table unchanged.
- Environment.World.WriteFile: a failed write keeps the previous file, or its absence. In the source, `to_csv` (etl/extract.py:52) and `to_parquet` (etl/load.py:28) open the target, which truncates it, before writing, so a failure after opening (a full disk, say) can leave a partial file, and nothing cleans it up. `Pipeline.PlannedEndState`'s claims that a failed extract leaves the files as they were and that a run not ending in `Done` leaves an existing columnar file unchanged rest on this atomic-write abstraction.
- The credentials row's host, port and user do not select among several databases: the `World` has one database. `Load.EngineUrl` models the connection string but is not used to connect.
- A missing `creds.db` and an empty `access` table are treated the same (outcome `CredentialsMissing`). Both are swallowed in the source too.
- The argument parser's tokenising, its `--help` output and the conversion of `--max-rows` to an integer (a non-integer also exits with status 2) are not modelled. The parsed options arrive as `CliArgs`.
- `os.makedirs` is not modelled: writability of a path is given by the environment. The `output_dir` parameter of `transform_data`, whose only use is that `os.makedirs` call (etl/transform.py:26), is left out.
- Pandas' `drop_duplicates` compares rows by value, with missing equal to missing. The model compares the `Cell` values, which matches that.
- Transform.FirstOccurrences: for a frame with no columns, all its (empty) rows are equal and collapse to one, while pandas returns such a frame unchanged. The CSV reader never produces such a frame with rows, and the transformed check rejects it as empty in both cases.
- Transform.Coerced: `pd.to_datetime` in pandas 2 infers one date format from the first present value of the column, so whether a cell parses can depend on other rows. The model's `toDatetime` parses each cell on its own.
- Load.LoadToDatabase: `sqlite3.connect("creds.db")` creates an empty `creds.db` when it is absent. The model does not track that file, so the `FileNotFoundError` branch at etl/load.py:77-78 is unreachable in the source, and the missing-table error is what a fresh run actually reports. Both end as `CredentialsMissing`.
- The modules `data_loader.py`, `etl/init.py` and the directories `database_lesson/`, `api_example/` and `parse_example/` are not part of this model.
