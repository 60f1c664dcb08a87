/** The load stage: check, write the full table to the columnar file
    (fatal on failure), then write the first `max_rows` rows to the
    database, replacing the table and swallowing any database failure. */
module Load {
  import opened Wrappers
  import opened Tables
  import opened Validate
  import opened Environment
  import opened Paths

  const DefaultOutputDir: string := "data/processed"
  const ParquetFileName: string := "processed_data.parquet"
  const DefaultTableName: string := "demidova"
  const DefaultMaxRows: int := 100
  const DbSchema: string := "public"
  const DbName: string := "homeworks"

  /** With the default directory, the columnar file lands at
      data/processed/processed_data.parquet. */
  lemma DefaultParquetPath()
    ensures JoinPath(DefaultOutputDir, ParquetFileName) == "data/processed/processed_data.parquet"
  {
  }

  /** The connection string built from the credentials row. */
  function EngineUrl(c: Credentials): (u: string)
    ensures |u| >= 22 && u[..22] == "postgresql+psycopg2://"
    ensures u[|u| - |DbName| - 1..] == "/" + DbName
  {
    "postgresql+psycopg2://" + c.user + ":" + c.password + "@" + c.host + ":" + c.port + "/" + DbName
  }

  /** `head(k)`: the first `k` rows, or for negative `k` all but the last `-k`. */
  function HeadRows(rows: seq<Row>, k: int): (r: seq<Row>)
    ensures r <= rows
    ensures |r| == if k >= 0 then (if k <= |rows| then k else |rows|)
                   else (if |rows| + k >= 0 then |rows| + k else 0)
  {
    if k >= 0 then (if k <= |rows| then rows[..k] else rows)
    else if -k >= |rows| then []
    else rows[..|rows| + k]
  }

  function Head(t: Table, k: int): (r: Table)
    ensures r.columns == t.columns && r.dtypes == t.dtypes && r.rows <= t.rows
  {
    Table(t.columns, t.dtypes, HeadRows(t.rows, k))
  }

  /** For a non-negative cap, the database receives exactly the first
      min(n, cap) rows, in their order. */
  lemma {:induction false} HeadKeepsLeadingRows(t: Table, k: int, i: nat)
    requires k >= 0 && i < |t.rows|
    ensures i < |Head(t, k).rows| <==> i < k
    ensures i < k ==> Head(t, k).rows[i] == t.rows[i]
  {
    var r := HeadRows(t.rows, k);
    assert r == t.rows[..|r|];
  }

  /** A table with no more rows than the cap is loaded whole. */
  lemma HeadOfShortTable(t: Table, k: int)
    requires 0 <= |t.rows| <= k
    ensures Head(t, k) == t
  {
    assert HeadRows(t.rows, k) == t.rows;
  }

  /** `load_to_parquet`: write the full table; a failed write raises. */
  method LoadToParquet(w: World, t: Table, outputDir: string, filename: string)
    returns (r: Result<string, EtlError>)
    modifies w
    ensures var path := JoinPath(outputDir, filename);
      && r == (if path in w.writable then Success(path) else Failure(WriteError(path)))
      && w.files == (if path in w.writable then old(w.files)[path := t] else old(w.files))
      && w.log == old(w.log) + [FileWritten(path, t, path in w.writable)]
    ensures w.dbTables == old(w.dbTables)
  {
    var path := JoinPath(outputDir, filename);
    var ok := w.WriteFile(path, t);
    if ok {
      r := Success(path);
    } else {
      r := Failure(WriteError(path));
    }
  }

  /** `load_to_database`: cap the rows, then replace the table. Every
      failure is caught and reported through the outcome only. */
  method LoadToDatabase(w: World, t: Table, tableName: string, maxRows: int)
    returns (outcome: DbOutcome)
    modifies w
    ensures outcome == w.DbOutcomeHere()
    ensures w.dbTables == if outcome == Replaced
                          then old(w.dbTables)[(DbSchema, tableName) := Head(t, maxRows)]
                          else old(w.dbTables)
    ensures w.log == old(w.log) + [DbWrite(DbSchema, tableName, Head(t, maxRows), outcome)]
    ensures w.files == old(w.files)
  {
    var toLoad := Head(t, maxRows);
    outcome := w.ReplaceTable(DbSchema, tableName, toLoad);
  }

  /** The external calls `load_data` makes, in order: none for an empty
      table; otherwise the full-table file write and, only when that
      succeeded, one database write of the capped rows. */
  function LoadEffects(t: Table, tableName: string, maxRows: int, path: string,
                       fileOk: bool, db: DbOutcome): (e: seq<Effect>)
    ensures IsEmpty(t) <==> e == []
    ensures !IsEmpty(t) ==> e[0] == FileWritten(path, t, fileOk)
    ensures forall k :: 0 <= k < |e| && e[k].DbWrite? ==>
              k == 1 && fileOk && e[k].data == Head(t, maxRows) && e[k].table == tableName
    ensures !IsEmpty(t) && fileOk ==> |e| == 2 && e[1] == DbWrite(DbSchema, tableName, Head(t, maxRows), db)
  {
    if IsEmpty(t) then []
    else [FileWritten(path, t, fileOk)] + (if fileOk then [DbWrite(DbSchema, tableName, Head(t, maxRows), db)] else [])
  }

  /** `load_data`: pre-load check, then the columnar file, then the
      database. Check and file-write failures propagate; the database
      outcome never does. */
  method LoadData(w: World, t: Table, tableName: string, maxRows: int, outputDir: string)
    returns (r: Outcome<EtlError>)
    requires w.HoldsFrames() && WellFormed(t)
    modifies w
    ensures w.HoldsFrames()
    ensures var path := JoinPath(outputDir, ParquetFileName);
      && (IsEmpty(t) ==> r == Fail(Invalid(EmptyDataset)))
      && (!IsEmpty(t) && path !in w.writable ==> r == Fail(WriteError(path)))
      && (r.Pass? <==> !IsEmpty(t) && path in w.writable)
    ensures var path := JoinPath(outputDir, ParquetFileName);
      w.log == old(w.log) + LoadEffects(t, tableName, maxRows, path, path in w.writable, w.DbOutcomeHere())
    ensures var path := JoinPath(outputDir, ParquetFileName);
      w.files == if !IsEmpty(t) && path in w.writable then old(w.files)[path := t] else old(w.files)
    ensures w.dbTables == if r.Pass? && w.DbOutcomeHere() == Replaced
                          then old(w.dbTables)[(DbSchema, tableName) := Head(t, maxRows)]
                          else old(w.dbTables)
  {
    var check := ValidateLoaded(t);
    if check.Fail? {
      return Fail(Invalid(check.error));
    }
    var written := LoadToParquet(w, t, outputDir, ParquetFileName);
    if written.Failure? {
      return Fail(written.error);
    }
    var _ := LoadToDatabase(w, t, tableName, maxRows);
    return Pass;
  }
}
