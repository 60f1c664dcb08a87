/** Everything outside the process that the pipeline touches: the remote
    file host, the local file system, the relational database and the
    credentials store. What each external call returns is fixed by the
    constant fields; the mutable fields are what the calls leave behind,
    and `log` records every call in the order it was made. */
module Environment {
  import opened Wrappers
  import opened Tables
  import opened Validate

  /** The failure kinds a stage can raise. */
  datatype EtlError =
    | FetchError(url: string)
    | ReadError(path: string)
    | WriteError(path: string)
    | Invalid(reason: ValidationError)

  /** Connection parameters read from the local credentials store. */
  datatype Credentials = Credentials(host: string, port: string, user: string, password: string)

  /** The result of one attempt to replace a database table. */
  datatype DbOutcome = Replaced | CredentialsMissing | DbFailed

  datatype Effect =
    | Fetched(url: string, ok: bool)
    | FileWritten(path: string, data: Table, ok: bool)
    | FileRead(path: string, ok: bool)
    | DbWrite(schema: string, table: string, data: Table, outcome: DbOutcome)

  /** Every table in the map is a rectangular data frame. */
  predicate AllFrames<K>(m: map<K, Table>)
  {
    forall k :: k in m ==> WellFormed(m[k])
  }

  class World {
    /** Files on disk, by path, as the tables they hold. */
    var files: map<string, Table>
    /** Database tables, by schema and name. */
    var dbTables: map<(string, string), Table>
    /** Every external call so far, oldest first. */
    var log: seq<Effect>

    /** What a download of each URL parses to; a URL not here fails. */
    const remote: map<string, Table>
    /** Paths a write to which succeeds. */
    const writable: set<string>
    /** The credentials row, if the store has one. */
    const credentials: Option<Credentials>
    /** Whether the database accepts a connection and a write. */
    const dbReachable: bool

    constructor (files: map<string, Table>, dbTables: map<(string, string), Table>,
                 remote: map<string, Table>, writable: set<string>,
                 credentials: Option<Credentials>, dbReachable: bool)
      ensures this.files == files && this.dbTables == dbTables && this.log == []
      ensures this.remote == remote && this.writable == writable
      ensures this.credentials == credentials && this.dbReachable == dbReachable
    {
      this.files := files;
      this.dbTables := dbTables;
      this.log := [];
      this.remote := remote;
      this.writable := writable;
      this.credentials := credentials;
      this.dbReachable := dbReachable;
    }

    /** Every download and every file parses to a rectangular data frame,
        as the CSV reader guarantees. */
    ghost predicate HoldsFrames()
      reads this
    {
      && AllFrames(remote)
      && AllFrames(files)
    }

    /** What a database write attempt ends with in this environment. */
    function DbOutcomeHere(): (o: DbOutcome)
      ensures o == Replaced <==> credentials.Some? && dbReachable
    {
      if credentials.None? then CredentialsMissing
      else if !dbReachable then DbFailed
      else Replaced
    }

    /** Download and parse a CSV resource. */
    method Fetch(url: string) returns (r: Option<Table>)
      modifies this`log
      ensures r == if url in remote then Some(remote[url]) else None
      ensures log == old(log) + [Fetched(url, url in remote)]
    {
      r := if url in remote then Some(remote[url]) else None;
      log := log + [Fetched(url, url in remote)];
    }

    /** Write a table to a file, replacing what was there. */
    method WriteFile(path: string, data: Table) returns (ok: bool)
      modifies this`files, this`log
      ensures ok == (path in writable)
      ensures files == if ok then old(files)[path := data] else old(files)
      ensures log == old(log) + [FileWritten(path, data, ok)]
    {
      ok := path in writable;
      if ok {
        files := files[path := data];
      }
      log := log + [FileWritten(path, data, ok)];
    }

    /** Read a table back from a file. */
    method ReadFile(path: string) returns (r: Option<Table>)
      modifies this`log
      ensures r == if path in files then Some(files[path]) else None
      ensures log == old(log) + [FileRead(path, path in files)]
    {
      r := if path in files then Some(files[path]) else None;
      log := log + [FileRead(path, path in files)];
    }

    /** Look up the credentials, connect, and write `data` as table
        `schema.name`, dropping whatever table had that name. */
    method ReplaceTable(schema: string, name: string, data: Table) returns (outcome: DbOutcome)
      modifies this`dbTables, this`log
      ensures outcome == DbOutcomeHere()
      ensures dbTables == if outcome == Replaced then old(dbTables)[(schema, name) := data] else old(dbTables)
      ensures log == old(log) + [DbWrite(schema, name, data, outcome)]
    {
      outcome := DbOutcomeHere();
      if outcome == Replaced {
        dbTables := dbTables[(schema, name) := data];
      }
      log := log + [DbWrite(schema, name, data, outcome)];
    }
  }
}
