/** The extract stage, with the download left abstract: fetch the CSV
    resource, check it as raw data, write it to the raw-data file and
    return that file's path. */
module Extract {
  import opened Wrappers
  import opened Tables
  import opened Validate
  import opened Environment
  import opened Paths

  const DownloadPrefix: string := "https://drive.google.com/uc?export=download&id="
  const RawOutputDir: string := "data/raw"
  const RawFileName: string := "raw_data.csv"

  /** The download URL for a file id on the file host. */
  function DownloadUrl(fileId: string): (u: string)
    ensures |u| == |DownloadPrefix| + |fileId|
    ensures u[..|DownloadPrefix|] == DownloadPrefix && u[|DownloadPrefix|..] == fileId
  {
    DownloadPrefix + fileId
  }

  /** The table the extract stage stores, or the error it raises. The
      check runs after the download and before the write, so a table that
      fails it is never written. */
  function Extracted(remote: map<string, Table>, writable: set<string>, fileId: string, outputDir: string)
    : (r: Result<Table, EtlError>)
    ensures r.Success? ==> DownloadUrl(fileId) in remote && r.value == remote[DownloadUrl(fileId)]
    ensures r.Success? ==> ValidateRaw(r.value).Success? && JoinPath(outputDir, RawFileName) in writable
    ensures DownloadUrl(fileId) !in remote ==> r == Failure(FetchError(DownloadUrl(fileId)))
    ensures DownloadUrl(fileId) in remote && ValidateRaw(remote[DownloadUrl(fileId)]).Failure? ==>
              r == Failure(Invalid(ValidateRaw(remote[DownloadUrl(fileId)]).error))
    ensures DownloadUrl(fileId) in remote && ValidateRaw(remote[DownloadUrl(fileId)]).Success?
              && JoinPath(outputDir, RawFileName) !in writable ==>
              r == Failure(WriteError(JoinPath(outputDir, RawFileName)))
  {
    var url := DownloadUrl(fileId);
    if url !in remote then Failure(FetchError(url))
    else match ValidateRaw(remote[url])
      case Failure(e) => Failure(Invalid(e))
      case Success(_) =>
        var path := JoinPath(outputDir, RawFileName);
        if path in writable then Success(remote[url]) else Failure(WriteError(path))
  }

  /** The external calls the extract stage makes: the download, then the
      file write only when the download passed the raw check. */
  function ExtractEffects(remote: map<string, Table>, writable: set<string>, fileId: string, outputDir: string)
    : (e: seq<Effect>)
    ensures |e| >= 1 && e[0] == Fetched(DownloadUrl(fileId), DownloadUrl(fileId) in remote)
    ensures |e| == 2 <==> DownloadUrl(fileId) in remote && ValidateRaw(remote[DownloadUrl(fileId)]).Success?
    ensures |e| <= 2
    ensures |e| == 2 ==> e[1] == FileWritten(JoinPath(outputDir, RawFileName), remote[DownloadUrl(fileId)],
                                             JoinPath(outputDir, RawFileName) in writable)
  {
    var url := DownloadUrl(fileId);
    if url in remote && ValidateRaw(remote[url]).Success? then
      var path := JoinPath(outputDir, RawFileName);
      [Fetched(url, true), FileWritten(path, remote[url], path in writable)]
    else [Fetched(url, url in remote)]
  }

  /** `extract_data`. */
  method ExtractData(w: World, fileId: string, outputDir: string) returns (r: Result<string, EtlError>)
    requires w.HoldsFrames()
    modifies w
    ensures w.HoldsFrames()
    ensures var ex := Extracted(w.remote, w.writable, fileId, outputDir);
      && (ex.Success? ==> r == Success(JoinPath(outputDir, RawFileName)))
      && (ex.Failure? ==> r == Failure(ex.error))
      && (ex.Success? ==> r.value in w.files && w.files[r.value] == ex.value)
    ensures w.log == old(w.log) + ExtractEffects(w.remote, w.writable, fileId, outputDir)
    ensures var ex := Extracted(w.remote, w.writable, fileId, outputDir);
      w.files == if ex.Success? then old(w.files)[JoinPath(outputDir, RawFileName) := ex.value] else old(w.files)
    ensures w.dbTables == old(w.dbTables)
  {
    var url := DownloadUrl(fileId);
    var fetched := w.Fetch(url);
    if fetched.None? {
      return Failure(FetchError(url));
    }
    var raw := fetched.value;
    var check := ValidateRaw(raw);
    if check.Failure? {
      return Failure(Invalid(check.error));
    }
    var path := JoinPath(outputDir, RawFileName);
    var ok := w.WriteFile(path, raw);
    if !ok {
      return Failure(WriteError(path));
    }
    return Success(path);
  }
}
