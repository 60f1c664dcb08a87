/** Optional values and results, used for missing cells and for the
    exceptions the pipeline raises. */
module Wrappers {

  datatype Option<+T> = None | Some(value: T)

  /** A computation that produces a value or fails with an error. */
  datatype Result<+R, +E> = Success(value: R) | Failure(error: E)

  /** A computation that produces nothing but may fail with an error. */
  datatype Outcome<+E> = Pass | Fail(error: E)
}

/** The abstract data frame the ETL stages pass between each other. */
module Tables {
  import opened Wrappers

  /** A cell value once it is present. `Number` and `Moment` carry opaque
      codes standing for the float64 and datetime64 values the dataframe
      library produces; the model never computes with them. */
  datatype Value = Text(s: string) | Number(code: int) | Moment(code: int)

  /** The dtype of a column. `Inferred` is whatever the CSV reader chose. */
  datatype DType = Inferred | StringType | Category | Numeric | Datetime

  /** A missing cell (NaN, NA, NaT) is `None`. */
  type Cell = Option<Value>
  type Row = seq<Cell>

  datatype Table = Table(columns: seq<string>, dtypes: seq<DType>, rows: seq<Row>)

  /** No element occurs twice. */
  predicate NoDuplicates<T(==)>(s: seq<T>)
  {
    forall a, b :: 0 <= a < b < |s| ==> s[a] != s[b]
  }

  /** A data frame is rectangular: one dtype per column, one cell per
      column in every row, and column labels are unique. */
  predicate WellFormed(t: Table)
  {
    && |t.dtypes| == |t.columns|
    && (forall i :: 0 <= i < |t.rows| ==> |t.rows[i]| == |t.columns|)
    && NoDuplicates(t.columns)
  }

  /** The data frame's `empty` flag: no rows or no columns. */
  predicate IsEmpty(t: Table)
  {
    |t.rows| == 0 || |t.columns| == 0
  }

  /** Number of cells, `shape[0] * shape[1]`. */
  function CellCount(t: Table): nat
  {
    |t.rows| * |t.columns|
  }

  /** Position of a column label that occurs in `names`. */
  function IndexOf(names: seq<string>, name: string): (j: nat)
    requires name in names
    ensures j < |names| && names[j] == name
    ensures forall a :: 0 <= a < j ==> names[a] != name
  {
    if names[0] == name then 0 else 1 + IndexOf(names[1..], name)
  }

  /** Number of missing cells in one row. */
  function MissingInRow(r: Row): (n: nat)
    ensures n <= |r|
    ensures n == 0 <==> forall c :: 0 <= c < |r| ==> r[c].Some?
  {
    if |r| == 0 then 0
    else MissingInRow(r[..|r| - 1]) + (if r[|r| - 1].None? then 1 else 0)
  }

  /** Number of missing cells in the whole table (`isnull().sum().sum()`). */
  function MissingCells(rows: seq<Row>): (n: nat)
  {
    if |rows| == 0 then 0
    else MissingCells(rows[..|rows| - 1]) + MissingInRow(rows[|rows| - 1])
  }

  /** A table has no missing cell exactly when none of its rows has one. */
  lemma {:induction false} MissingCellsZero(rows: seq<Row>)
    ensures MissingCells(rows) == 0 <==> forall i :: 0 <= i < |rows| ==> MissingInRow(rows[i]) == 0
  {
    if |rows| > 0 {
      MissingCellsZero(rows[..|rows| - 1]);
      assert forall i :: 0 <= i < |rows| - 1 ==> rows[..|rows| - 1][i] == rows[i];
    }
  }

  /** The missing count never exceeds the number of cells. */
  lemma {:induction false} MissingCellsBound(t: Table)
    requires WellFormed(t)
    ensures MissingCells(t.rows) <= CellCount(t)
  {
    MissingCellsBoundRows(t.rows, |t.columns|);
  }

  /** Rows of one width have at most rows × width missing cells. */
  lemma {:induction false} MissingCellsBoundRows(rows: seq<Row>, width: nat)
    requires forall i :: 0 <= i < |rows| ==> |rows[i]| == width
    ensures MissingCells(rows) <= |rows| * width
  {
    if |rows| > 0 {
      var init := rows[..|rows| - 1];
      MissingCellsBoundRows(init, width);
      assert MissingInRow(rows[|rows| - 1]) <= width;
      assert |rows| * width == |init| * width + width;
    }
  }
}
