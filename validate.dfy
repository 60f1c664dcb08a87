/** The three checkpoint validators of the ETL pipeline. Each one only
    reads the table: it either passes or fails with a specific error. */
module Validate {
  import opened Wrappers
  import opened Tables

  datatype ValidationError =
    | EmptyDataset
    | InsufficientRows(count: nat)
    | ExcessiveMissingness(missing: nat, cells: nat)

  /** Fewest rows a raw extract may have. */
  const MinRawRows: nat := 10
  /** Largest share of missing cells, in percent, a transformed table may have. */
  const MaxMissingPercent: nat := 50
  /** Columns whose absence from a raw extract is reported as a warning. */
  const RequiredColumns: seq<string> := ["job_title", "organization", "country"]

  /** The required columns the table lacks, in the order they are listed. */
  function AbsentColumns(required: seq<string>, present: seq<string>): (r: seq<string>)
    ensures forall c :: c in r <==> c in required && c !in present
    ensures |r| <= |required|
  {
    if |required| == 0 then []
    else if required[0] in present then AbsentColumns(required[1..], present)
    else [required[0]] + AbsentColumns(required[1..], present)
  }

  /** Raw-data check. On success the value is the list of required columns
      that are absent, which the pipeline only warns about. */
  function ValidateRaw(t: Table): (r: Result<seq<string>, ValidationError>)
    ensures r.Failure? <==> IsEmpty(t) || |t.rows| < MinRawRows
    ensures r.Failure? && IsEmpty(t) ==> r.error == EmptyDataset
    ensures r.Failure? && !IsEmpty(t) ==> r.error == InsufficientRows(|t.rows|)
    ensures r.Success? ==> forall c :: c in r.value <==> c in RequiredColumns && c !in t.columns
  {
    if IsEmpty(t) then Failure(EmptyDataset)
    else if |t.rows| < MinRawRows then Failure(InsufficientRows(|t.rows|))
    else Success(AbsentColumns(RequiredColumns, t.columns))
  }

  /** The percentage test `missing / cells * 100 > 50`, over integers:
      strictly more than half of the cells are missing. */
  function TooManyMissing(missing: nat, cells: nat): (b: bool)
    ensures b <==> 2 * missing > cells
  {
    missing * 100 > MaxMissingPercent * cells
  }

  /** Transformed-data check: not empty, and at most half the cells missing. */
  function ValidateTransformed(t: Table): (r: Outcome<ValidationError>)
    ensures r.Fail? <==> IsEmpty(t) || 2 * MissingCells(t.rows) > CellCount(t)
    ensures r.Fail? && IsEmpty(t) ==> r.error == EmptyDataset
    ensures r.Fail? && !IsEmpty(t) ==>
              r.error == ExcessiveMissingness(MissingCells(t.rows), CellCount(t))
  {
    if IsEmpty(t) then Fail(EmptyDataset)
    else
      var cells := CellCount(t);
      var missing := MissingCells(t.rows);
      if TooManyMissing(missing, cells) then Fail(ExcessiveMissingness(missing, cells))
      else Pass
  }

  /** Pre-load check: the table is not empty. */
  function ValidateLoaded(t: Table): (r: Outcome<ValidationError>)
    ensures r.Fail? <==> IsEmpty(t)
    ensures r.Fail? ==> r.error == EmptyDataset
  {
    if IsEmpty(t) then Fail(EmptyDataset) else Pass
  }

  /** A table with rows and columns passes the raw check exactly when it
      has at least ten rows, whatever its column labels. */
  lemma RawCheckIgnoresColumnLabels(t: Table, u: Table)
    requires |t.rows| == |u.rows| && (|t.columns| == 0 <==> |u.columns| == 0)
    ensures ValidateRaw(t).Success? <==> ValidateRaw(u).Success?
  {
  }

  /** Exactly half the cells missing passes; one more missing cell than
      half fails. */
  lemma {:induction false} MissingBoundary(t: Table)
    requires WellFormed(t) && !IsEmpty(t)
    ensures 2 * MissingCells(t.rows) == CellCount(t) ==> ValidateTransformed(t).Pass?
    ensures 2 * MissingCells(t.rows) > CellCount(t) ==> ValidateTransformed(t).Fail?
    ensures MissingCells(t.rows) <= CellCount(t)
  {
    MissingCellsBound(t);
  }

  /** Passing the raw or the transformed check implies passing the pre-load check. */
  lemma EarlierChecksImplyLoadedCheck(t: Table)
    ensures ValidateRaw(t).Success? ==> ValidateLoaded(t).Pass?
    ensures ValidateTransformed(t).Pass? ==> ValidateLoaded(t).Pass?
  {
  }
}
