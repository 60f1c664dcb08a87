/** The transform stage: schema-driven column coercion, then exact
    duplicate-row removal that keeps first occurrences, then the
    transformed-data check. */
module Transform {
  import opened Wrappers
  import opened Tables
  import opened Validate
  import opened Environment

  /** The dataframe library's conversions, left abstract. `toNumeric` and
      `toDatetime` return `None` for a value they cannot parse
      (`errors="coerce"`); `asText` renders a value as a string value. */
  datatype Parsers = Parsers(
    asText: Value -> Value,
    toNumeric: Value -> Option<Value>,
    toDatetime: Value -> Option<Value>)

  datatype Coercion = ToText | ToCategory | ToNumeric | ToDatetime

  /** Columns cast to the string dtype, in the order they are cast. */
  const TextColumns: seq<string> := [
    "country", "country_code", "job_board", "job_title", "job_type",
    "location", "organization", "page_url", "sector", "uniq_id"]
  /** Columns cast to the category dtype, after the text casts. */
  const CategoryColumns: seq<string> := ["has_expired", "job_type", "sector"]
  const SalaryColumn: string := "salary"
  const DateColumn: string := "date_added"

  function TargetType(k: Coercion): DType
  {
    match k
    case ToText => StringType
    case ToCategory => Category
    case ToNumeric => Numeric
    case ToDatetime => Datetime
  }

  /** One cell under one coercion. A missing cell stays missing; a category
      cast keeps the value; an unparseable number or date becomes missing. */
  function ConvertCell(p: Parsers, k: Coercion, c: Cell): (r: Cell)
    ensures c.None? ==> r.None?
    ensures k == ToCategory ==> r == c
  {
    match c
    case None => None
    case Some(v) =>
      match k
      case ToText => Some(p.asText(v))
      case ToCategory => Some(v)
      case ToNumeric => p.toNumeric(v)
      case ToDatetime => p.toDatetime(v)
  }

  /** Replace column `j` by its coerced version (`df[col] = df[col].astype(...)`). */
  function CoerceColumn(t: Table, j: nat, k: Coercion, p: Parsers): (r: Table)
    requires WellFormed(t) && j < |t.columns|
    ensures WellFormed(r) && r.columns == t.columns && |r.rows| == |t.rows|
  {
    Table(t.columns, t.dtypes[j := TargetType(k)],
          seq(|t.rows|, i requires 0 <= i < |t.rows| => t.rows[i][j := ConvertCell(p, k, t.rows[i][j])]))
  }

  /** Coerce the named column when the table has it; otherwise do nothing. */
  function CoerceIfPresent(t: Table, name: string, k: Coercion, p: Parsers): (r: Table)
    requires WellFormed(t)
    ensures WellFormed(r) && r.columns == t.columns && |r.rows| == |t.rows|
  {
    if name in t.columns then CoerceColumn(t, IndexOf(t.columns, name), k, p) else t
  }

  /** The `for col in cols: if col in df.columns: ...` loop, as a left fold. */
  function CoerceEach(t: Table, names: seq<string>, k: Coercion, p: Parsers): (r: Table)
    requires WellFormed(t)
    ensures WellFormed(r) && r.columns == t.columns && |r.rows| == |t.rows|
    decreases |names|
  {
    if |names| == 0 then t
    else CoerceIfPresent(CoerceEach(t, names[..|names| - 1], k, p), names[|names| - 1], k, p)
  }

  /** Steps (2) to (5) of the transform: text casts, category casts, then
      the salary and date parses. */
  function Coerced(t: Table, p: Parsers): (r: Table)
    requires WellFormed(t)
    ensures WellFormed(r) && r.columns == t.columns && |r.rows| == |t.rows|
  {
    var text := CoerceEach(t, TextColumns, ToText, p);
    var category := CoerceEach(text, CategoryColumns, ToCategory, p);
    CoerceIfPresent(CoerceIfPresent(category, SalaryColumn, ToNumeric, p), DateColumn, ToDatetime, p)
  }

  // ---------------------------------------------------------------------
  // The declarative schema the coercion loops implement.

  /** Final dtype of a column with label `name` that had dtype `current`. */
  function DeclaredType(name: string, current: DType): DType
  {
    if name in CategoryColumns then Category
    else if name in TextColumns then StringType
    else if name == SalaryColumn then Numeric
    else if name == DateColumn then Datetime
    else current
  }

  /** Final value of a cell in a column with label `name`. */
  function DeclaredCell(name: string, p: Parsers, c: Cell): Cell
  {
    if name in TextColumns then ConvertCell(p, ToText, c)
    else if name == SalaryColumn then ConvertCell(p, ToNumeric, c)
    else if name == DateColumn then ConvertCell(p, ToDatetime, c)
    else c
  }

  /** A row under the declared schema. */
  function CoerceRow(columns: seq<string>, p: Parsers, r: Row): Row
    requires |r| == |columns|
  {
    seq(|r|, c requires 0 <= c < |r| => DeclaredCell(columns[c], p, r[c]))
  }

  lemma ColumnListsFacts()
    ensures NoDuplicates(TextColumns) && NoDuplicates(CategoryColumns)
    ensures SalaryColumn !in TextColumns && SalaryColumn !in CategoryColumns
    ensures DateColumn !in TextColumns && DateColumn !in CategoryColumns
    ensures SalaryColumn != DateColumn
    ensures forall n :: n in CategoryColumns && n != "has_expired" ==> n in TextColumns
    ensures "has_expired" !in TextColumns
  {
  }

  lemma {:induction false} CoerceIfPresentAt(t: Table, name: string, k: Coercion, p: Parsers, i: nat, j: nat)
    requires WellFormed(t) && i < |t.rows| && j < |t.columns|
    ensures CoerceIfPresent(t, name, k, p).dtypes[j] ==
              if t.columns[j] == name then TargetType(k) else t.dtypes[j]
    ensures CoerceIfPresent(t, name, k, p).rows[i][j] ==
              if t.columns[j] == name then ConvertCell(p, k, t.rows[i][j]) else t.rows[i][j]
  {
    if name in t.columns {
      var idx := IndexOf(t.columns, name);
      assert t.columns[j] == name <==> j == idx;
    }
  }

  lemma {:induction false} CoerceEachAt(t: Table, names: seq<string>, k: Coercion, p: Parsers, i: nat, j: nat)
    requires WellFormed(t) && NoDuplicates(names) && i < |t.rows| && j < |t.columns|
    ensures CoerceEach(t, names, k, p).dtypes[j] ==
              if t.columns[j] in names then TargetType(k) else t.dtypes[j]
    ensures CoerceEach(t, names, k, p).rows[i][j] ==
              if t.columns[j] in names then ConvertCell(p, k, t.rows[i][j]) else t.rows[i][j]
    decreases |names|
  {
    if |names| > 0 {
      var init := names[..|names| - 1];
      var last := names[|names| - 1];
      assert NoDuplicates(init);
      CoerceEachAt(t, init, k, p, i, j);
      CoerceIfPresentAt(CoerceEach(t, init, k, p), last, k, p, i, j);
      assert names == init + [last];
      assert t.columns[j] in names <==> t.columns[j] in init || t.columns[j] == last;
      assert t.columns[j] == last ==> t.columns[j] !in init;
    }
  }

  /** The coercion loops compute exactly the declared schema, cell by cell. */
  lemma CoercedFollowsSchema(t: Table, p: Parsers, i: nat, j: nat)
    requires WellFormed(t) && i < |t.rows| && j < |t.columns|
    ensures Coerced(t, p).dtypes[j] == DeclaredType(t.columns[j], t.dtypes[j])
    ensures Coerced(t, p).rows[i][j] == DeclaredCell(t.columns[j], p, t.rows[i][j])
  {
    ColumnListsFacts();
    var text := CoerceEach(t, TextColumns, ToText, p);
    var category := CoerceEach(text, CategoryColumns, ToCategory, p);
    var salary := CoerceIfPresent(category, SalaryColumn, ToNumeric, p);
    CoerceEachAt(t, TextColumns, ToText, p, i, j);
    CoerceEachAt(text, CategoryColumns, ToCategory, p, i, j);
    CoerceIfPresentAt(category, SalaryColumn, ToNumeric, p, i, j);
    CoerceIfPresentAt(salary, DateColumn, ToDatetime, p, i, j);
  }

  /** Coercion works row by row: row `i` of the result depends only on row
      `i` of the input. */
  lemma CoercedRows(t: Table, p: Parsers, i: nat)
    requires WellFormed(t) && i < |t.rows|
    ensures Coerced(t, p).rows[i] == CoerceRow(t.columns, p, t.rows[i])
  {
    forall j | 0 <= j < |t.columns|
      ensures Coerced(t, p).rows[i][j] == CoerceRow(t.columns, p, t.rows[i])[j]
    {
      CoercedFollowsSchema(t, p, i, j);
    }
  }

  /** `job_type` and `sector` end with the category dtype, the category loop
      running after the text loop; their values are the text renderings. */
  lemma CategoryCastWins(t: Table, p: Parsers, i: nat, j: nat)
    requires WellFormed(t) && i < |t.rows| && j < |t.columns|
    requires t.columns[j] == "job_type" || t.columns[j] == "sector"
    ensures Coerced(t, p).dtypes[j] == Category
    ensures Coerced(t, p).rows[i][j] == ConvertCell(p, ToText, t.rows[i][j])
  {
    CoercedFollowsSchema(t, p, i, j);
  }

  /** A column in none of the lists, other than `salary` and `date_added`,
      keeps its dtype and its values. */
  lemma UnlistedColumnUnchanged(t: Table, p: Parsers, i: nat, j: nat)
    requires WellFormed(t) && i < |t.rows| && j < |t.columns|
    requires t.columns[j] !in TextColumns && t.columns[j] !in CategoryColumns
    requires t.columns[j] != SalaryColumn && t.columns[j] != DateColumn
    ensures Coerced(t, p).dtypes[j] == t.dtypes[j]
    ensures Coerced(t, p).rows[i][j] == t.rows[i][j]
  {
    CoercedFollowsSchema(t, p, i, j);
  }

  /** An unparseable `salary` or `date_added` cell becomes missing; the
      column takes the numeric or datetime dtype. */
  lemma UnparseableBecomesMissing(t: Table, p: Parsers, i: nat, j: nat)
    requires WellFormed(t) && i < |t.rows| && j < |t.columns|
    requires t.columns[j] == SalaryColumn || t.columns[j] == DateColumn
    ensures Coerced(t, p).dtypes[j] == if t.columns[j] == SalaryColumn then Numeric else Datetime
    ensures (t.rows[i][j].Some? && t.columns[j] == SalaryColumn && p.toNumeric(t.rows[i][j].value).None?)
              ==> Coerced(t, p).rows[i][j].None?
    ensures (t.rows[i][j].Some? && t.columns[j] == DateColumn && p.toDatetime(t.rows[i][j].value).None?)
              ==> Coerced(t, p).rows[i][j].None?
  {
    ColumnListsFacts();
    CoercedFollowsSchema(t, p, i, j);
  }

  // ---------------------------------------------------------------------
  // Duplicate removal.

  /** The first occurrence of every element, in the original order. */
  function FirstOccurrences<T(==)>(s: seq<T>): (r: seq<T>)
    ensures |r| <= |s|
  {
    if |s| == 0 then []
    else
      var kept := FirstOccurrences(s[..|s| - 1]);
      if s[|s| - 1] in kept then kept else kept + [s[|s| - 1]]
  }

  /** Indices `i` whose element does not occur before `i`, ascending. */
  function FirstIndices<T(==)>(s: seq<T>): (r: seq<nat>)
    ensures forall k :: 0 <= k < |r| ==> r[k] < |s|
  {
    if |s| == 0 then []
    else FirstIndices(s[..|s| - 1]) + (if s[|s| - 1] in s[..|s| - 1] then [] else [|s| - 1])
  }

  lemma {:induction false} FirstOccurrencesElements<T>(s: seq<T>)
    ensures forall x :: x in FirstOccurrences(s) <==> x in s
  {
    if |s| > 0 {
      FirstOccurrencesElements(s[..|s| - 1]);
      assert s == s[..|s| - 1] + [s[|s| - 1]];
    }
  }

  lemma {:induction false} FirstOccurrencesNoDuplicates<T>(s: seq<T>)
    ensures NoDuplicates(FirstOccurrences(s))
  {
    if |s| > 0 {
      FirstOccurrencesNoDuplicates(s[..|s| - 1]);
    }
  }

  lemma {:induction false} FirstOccurrencesWidth(rows: seq<Row>, width: nat)
    requires forall i :: 0 <= i < |rows| ==> |rows[i]| == width
    ensures forall i :: 0 <= i < |FirstOccurrences(rows)| ==> |FirstOccurrences(rows)[i]| == width
  {
    if |rows| > 0 {
      FirstOccurrencesWidth(rows[..|rows| - 1], width);
    }
  }

  /** A duplicate-free sequence is its own first-occurrence sequence. */
  lemma {:induction false} FirstOccurrencesOfDistinct<T>(s: seq<T>)
    requires NoDuplicates(s)
    ensures FirstOccurrences(s) == s
  {
    if |s| > 0 {
      var init := s[..|s| - 1];
      assert NoDuplicates(init);
      FirstOccurrencesOfDistinct(init);
      assert s[|s| - 1] !in init;
      assert s == init + [s[|s| - 1]];
    }
  }

  /** Removing duplicates twice is removing them once. */
  lemma FirstOccurrencesIdempotent<T>(s: seq<T>)
    ensures FirstOccurrences(FirstOccurrences(s)) == FirstOccurrences(s)
  {
    FirstOccurrencesNoDuplicates(s);
    FirstOccurrencesOfDistinct(FirstOccurrences(s));
  }

  lemma {:induction false} FirstIndicesSelect<T>(s: seq<T>)
    ensures |FirstIndices(s)| == |FirstOccurrences(s)|
    ensures forall k :: 0 <= k < |FirstIndices(s)| ==> FirstOccurrences(s)[k] == s[FirstIndices(s)[k]]
  {
    if |s| > 0 {
      var init := s[..|s| - 1];
      FirstIndicesSelect(init);
      FirstOccurrencesElements(init);
      forall k | 0 <= k < |FirstIndices(init)| ensures s[FirstIndices(init)[k]] == init[FirstIndices(init)[k]] { }
    }
  }

  lemma {:induction false} FirstIndicesAscending<T>(s: seq<T>)
    ensures forall k, l :: 0 <= k < l < |FirstIndices(s)| ==> FirstIndices(s)[k] < FirstIndices(s)[l]
  {
    if |s| > 0 {
      FirstIndicesAscending(s[..|s| - 1]);
    }
  }

  lemma {:induction false} FirstIndexMember<T>(s: seq<T>, i: nat)
    requires i < |s|
    ensures i in FirstIndices(s) <==> s[i] !in s[..i]
    decreases |s|
  {
    var n := |s| - 1;
    var init := s[..n];
    assert FirstIndices(s) == FirstIndices(init) + (if s[n] in init then [] else [n]);
    if i < n {
      FirstIndexMember(init, i);
      assert s[..i] == init[..i];
    } else {
      assert n !in FirstIndices(init);
    }
  }

  lemma FirstIndicesMembership<T>(s: seq<T>)
    ensures forall i :: 0 <= i < |s| ==> (i in FirstIndices(s) <==> s[i] !in s[..i])
  {
    forall i | 0 <= i < |s| ensures i in FirstIndices(s) <==> s[i] !in s[..i] {
      FirstIndexMember(s, i);
    }
  }

  /** The result is the subsequence of `s` at the first-occurrence indices:
      those indices ascend, and an index is among them exactly when its
      element does not occur earlier. */
  lemma FirstOccurrencesAreFirst<T>(s: seq<T>)
    ensures |FirstIndices(s)| == |FirstOccurrences(s)|
    ensures forall k :: 0 <= k < |FirstIndices(s)| ==> FirstOccurrences(s)[k] == s[FirstIndices(s)[k]]
    ensures forall k, l :: 0 <= k < l < |FirstIndices(s)| ==> FirstIndices(s)[k] < FirstIndices(s)[l]
    ensures forall i :: 0 <= i < |s| ==> (i in FirstIndices(s) <==> s[i] !in s[..i])
  {
    FirstIndicesSelect(s);
    FirstIndicesAscending(s);
    FirstIndicesMembership(s);
  }

  /** Deleting a later copy of an element leaves the first occurrences
      unchanged: of two equal rows the earlier one is kept. */
  lemma {:induction false} DropLaterCopy<T>(s: seq<T>, i: nat, j: nat)
    requires i < j < |s| && s[i] == s[j]
    ensures FirstOccurrences(s) == FirstOccurrences(s[..j] + s[j + 1..])
    decreases |s|
  {
    var n := |s| - 1;
    var t := s[..j] + s[j + 1..];
    if j == n {
      assert t == s[..n];
      FirstOccurrencesElements(s[..n]);
      assert s[i] in s[..n];
    } else {
      DropLaterCopy(s[..n], i, j);
      assert t[..|t| - 1] == s[..n][..j] + s[..n][j + 1..];
      assert t[|t| - 1] == s[n];
      FirstOccurrencesElements(s[..n]);
      FirstOccurrencesElements(t[..|t| - 1]);
    }
  }

  /** With exactly one pair of equal elements, at `i` and `j`, duplicate
      removal drops the later one and nothing else. */
  lemma OneDuplicatePair<T>(s: seq<T>, i: nat, j: nat)
    requires i < j < |s| && s[i] == s[j]
    requires NoDuplicates(s[..j] + s[j + 1..])
    ensures FirstOccurrences(s) == s[..j] + s[j + 1..]
    ensures |FirstOccurrences(s)| == |s| - 1
  {
    DropLaterCopy(s, i, j);
    FirstOccurrencesOfDistinct(s[..j] + s[j + 1..]);
  }

  /** `drop_duplicates()`: a loop over the rows with a set of rows seen so far. */
  method DropDuplicates(rows: seq<Row>) returns (kept: seq<Row>, removed: nat)
    ensures kept == FirstOccurrences(rows)
    ensures removed == |rows| - |kept|
    ensures NoDuplicates(kept)
    ensures forall r :: r in kept <==> r in rows
  {
    kept := [];
    var seen: set<Row> := {};
    for i := 0 to |rows|
      invariant kept == FirstOccurrences(rows[..i])
      invariant forall r :: r in seen <==> r in kept
    {
      assert rows[..i + 1][..i] == rows[..i];
      if rows[i] !in seen {
        kept := kept + [rows[i]];
        seen := seen + {rows[i]};
      }
    }
    assert rows[..|rows|] == rows;
    removed := |rows| - |kept|;
    FirstOccurrencesNoDuplicates(rows);
    FirstOccurrencesElements(rows);
  }

  /** `for col in names: if col in df.columns: df[col] = <coerce>(df[col])`. */
  method CoerceColumns(t: Table, names: seq<string>, k: Coercion, p: Parsers) returns (r: Table)
    requires WellFormed(t)
    ensures r == CoerceEach(t, names, k, p)
  {
    r := t;
    for n := 0 to |names|
      invariant WellFormed(r)
      invariant r == CoerceEach(t, names[..n], k, p)
    {
      assert names[..n + 1][..n] == names[..n];
      var col := names[n];
      if col in r.columns {
        r := CoerceColumn(r, IndexOf(r.columns, col), k, p);
      }
    }
    assert names[..|names|] == names;
  }

  // ---------------------------------------------------------------------
  // The whole transform.

  /** The table with `drop_duplicates()` applied. */
  function Deduplicated(t: Table): (r: Table)
    requires WellFormed(t)
    ensures WellFormed(r) && r.columns == t.columns && NoDuplicates(r.rows)
  {
    FirstOccurrencesNoDuplicates(t.rows);
    FirstOccurrencesWidth(t.rows, |t.columns|);
    Table(t.columns, t.dtypes, FirstOccurrences(t.rows))
  }

  /** What the transform returns or raises for a raw table. */
  function Transformed(raw: Table, p: Parsers): (r: Result<Table, ValidationError>)
    requires WellFormed(raw)
    ensures r.Success? ==> && WellFormed(r.value) && r.value.columns == raw.columns
                           && |r.value.rows| <= |raw.rows| && NoDuplicates(r.value.rows)
                           && ValidateTransformed(r.value).Pass?
    ensures r.Failure? ==> r.error.EmptyDataset? || r.error.ExcessiveMissingness?
  {
    var d := Deduplicated(Coerced(raw, p));
    match ValidateTransformed(d)
    case Pass => Success(d)
    case Fail(e) => Failure(e)
  }

  /** The transform after the raw file is read: coercion loops, duplicate
      removal, and the transformed-data check, whose failure propagates. */
  method TransformTable(raw: Table, p: Parsers) returns (r: Result<Table, ValidationError>)
    requires WellFormed(raw)
    ensures r == Transformed(raw, p)
    ensures r.Success? ==> && WellFormed(r.value) && r.value.columns == raw.columns
                           && NoDuplicates(r.value.rows) && ValidateTransformed(r.value).Pass?
    ensures r.Failure? ==> r.error.EmptyDataset? || r.error.ExcessiveMissingness?
  {
    var t := CoerceColumns(raw, TextColumns, ToText, p);
    t := CoerceColumns(t, CategoryColumns, ToCategory, p);
    ghost var category := t;
    if SalaryColumn in t.columns {
      t := CoerceColumn(t, IndexOf(t.columns, SalaryColumn), ToNumeric, p);
    }
    assert t == CoerceIfPresent(category, SalaryColumn, ToNumeric, p);
    ghost var salary := t;
    if DateColumn in t.columns {
      t := CoerceColumn(t, IndexOf(t.columns, DateColumn), ToDatetime, p);
    }
    assert t == CoerceIfPresent(salary, DateColumn, ToDatetime, p);
    assert t == Coerced(raw, p);
    var kept, removed := DropDuplicates(t.rows);
    t := Table(t.columns, t.dtypes, kept);
    assert t == Deduplicated(Coerced(raw, p));
    var check := ValidateTransformed(t);
    if check.Fail? {
      return Failure(check.error);
    }
    return Success(t);
  }

  /** `transform_data`: read the raw file, then transform it. A read
      failure or a failed check propagates. */
  method TransformData(w: World, inputPath: string, p: Parsers) returns (r: Result<Table, EtlError>)
    requires w.HoldsFrames()
    modifies w
    ensures w.files == old(w.files) && w.dbTables == old(w.dbTables) && w.HoldsFrames()
    ensures inputPath !in w.files ==> r == Failure(ReadError(inputPath))
    ensures inputPath in w.files ==>
              r == match Transformed(w.files[inputPath], p)
                   case Success(t) => Success(t)
                   case Failure(e) => Failure(Invalid(e))
    ensures r.Success? ==> WellFormed(r.value)
    ensures w.log == old(w.log) + [FileRead(inputPath, inputPath in w.files)]
  {
    var read := w.ReadFile(inputPath);
    if read.None? {
      return Failure(ReadError(inputPath));
    }
    var transformed := TransformTable(read.value, p);
    if transformed.Failure? {
      return Failure(Invalid(transformed.error));
    }
    return Success(transformed.value);
  }

  /** Two rows that differ only in their `salary` cells, both unparseable,
      become equal after coercion, and duplicate removal, which compares the
      coerced rows, keeps only one of them. */
  lemma UnparseableSalariesCollapse(t: Table, p: Parsers, a: nat, b: nat, j: nat)
    requires WellFormed(t) && a < b < |t.rows| && j < |t.columns| && t.columns[j] == SalaryColumn
    requires forall c :: 0 <= c < |t.columns| && c != j ==> t.rows[a][c] == t.rows[b][c]
    requires t.rows[a][j].Some? && p.toNumeric(t.rows[a][j].value).None?
    requires t.rows[b][j].Some? && p.toNumeric(t.rows[b][j].value).None?
    ensures Coerced(t, p).rows[a] == Coerced(t, p).rows[b]
    ensures |Deduplicated(Coerced(t, p)).rows| < |t.rows|
  {
    ColumnListsFacts();
    var c := Coerced(t, p);
    CoercedRows(t, p, a);
    CoercedRows(t, p, b);
    assert CoerceRow(t.columns, p, t.rows[a]) == CoerceRow(t.columns, p, t.rows[b]);
    DropLaterCopy(c.rows, a, b);
  }

  /** Conversions that leave their own output as it is: rendering a rendered
      value, or parsing a parsed number or date, changes nothing. */
  ghost predicate StableParsers(p: Parsers)
  {
    && (forall v :: p.asText(p.asText(v)) == p.asText(v))
    && (forall v :: p.toNumeric(v).Some? ==> p.toNumeric(p.toNumeric(v).value) == p.toNumeric(v))
    && (forall v :: p.toDatetime(v).Some? ==> p.toDatetime(p.toDatetime(v).value) == p.toDatetime(v))
  }

  /** A table already in the declared schema: every dtype and cell is what
      the schema would make of it. */
  ghost predicate Settled(t: Table, p: Parsers)
    requires WellFormed(t)
  {
    && (forall j :: 0 <= j < |t.columns| ==> t.dtypes[j] == DeclaredType(t.columns[j], t.dtypes[j]))
    && (forall i, j :: 0 <= i < |t.rows| && 0 <= j < |t.columns| ==>
          t.rows[i][j] == DeclaredCell(t.columns[j], p, t.rows[i][j]))
  }

  /** Coercing a settled table leaves it unchanged. */
  lemma CoercedSettled(t: Table, p: Parsers)
    requires WellFormed(t) && Settled(t, p)
    ensures Coerced(t, p) == t
  {
    var c := Coerced(t, p);
    forall j | 0 <= j < |t.columns| ensures c.dtypes[j] == t.dtypes[j] {
      if |t.rows| > 0 { CoercedFollowsSchema(t, p, 0, j); }
      else { CoercedTypes(t, p, j); }
    }
    forall i | 0 <= i < |t.rows| ensures c.rows[i] == t.rows[i] {
      forall j | 0 <= j < |t.columns| ensures c.rows[i][j] == t.rows[i][j] {
        CoercedFollowsSchema(t, p, i, j);
      }
    }
  }

  /** The dtype part of the schema, for tables with or without rows. */
  lemma CoercedTypes(t: Table, p: Parsers, j: nat)
    requires WellFormed(t) && j < |t.columns|
    ensures Coerced(t, p).dtypes[j] == DeclaredType(t.columns[j], t.dtypes[j])
  {
    var u := Table(t.columns, t.dtypes, [seq(|t.columns|, c => None)]);
    CoercedFollowsSchema(u, p, 0, j);
    CoercedTypesIgnoreRows(t, u, p);
  }

  lemma CoercedTypesIgnoreRows(t: Table, u: Table, p: Parsers)
    requires WellFormed(t) && WellFormed(u) && t.columns == u.columns && t.dtypes == u.dtypes
    ensures Coerced(t, p).dtypes == Coerced(u, p).dtypes
  {
    CoerceEachTypesIgnoreRows(t, u, TextColumns, ToText, p);
    var t1, u1 := CoerceEach(t, TextColumns, ToText, p), CoerceEach(u, TextColumns, ToText, p);
    CoerceEachTypesIgnoreRows(t1, u1, CategoryColumns, ToCategory, p);
  }

  lemma {:induction false} CoerceEachTypesIgnoreRows(t: Table, u: Table, names: seq<string>, k: Coercion, p: Parsers)
    requires WellFormed(t) && WellFormed(u) && t.columns == u.columns && t.dtypes == u.dtypes
    ensures CoerceEach(t, names, k, p).dtypes == CoerceEach(u, names, k, p).dtypes
    decreases |names|
  {
    if |names| > 0 {
      CoerceEachTypesIgnoreRows(t, u, names[..|names| - 1], k, p);
    }
  }

  /** With stable conversions, a coerced table is settled. */
  lemma CoercedIsSettled(t: Table, p: Parsers)
    requires WellFormed(t) && StableParsers(p)
    ensures Settled(Coerced(t, p), p)
  {
    ColumnListsFacts();
    var c := Coerced(t, p);
    forall j | 0 <= j < |c.columns|
      ensures c.dtypes[j] == DeclaredType(c.columns[j], c.dtypes[j])
    {
      CoercedTypes(t, p, j);
    }
    forall i, j | 0 <= i < |c.rows| && 0 <= j < |c.columns|
      ensures c.rows[i][j] == DeclaredCell(c.columns[j], p, c.rows[i][j])
    {
      CoercedFollowsSchema(t, p, i, j);
    }
  }

  lemma DeduplicatedSettled(t: Table, p: Parsers)
    requires WellFormed(t) && Settled(t, p)
    ensures Settled(Deduplicated(t), p)
  {
    var d := Deduplicated(t);
    forall i, j | 0 <= i < |d.rows| && 0 <= j < |d.columns|
      ensures d.rows[i][j] == DeclaredCell(d.columns[j], p, d.rows[i][j])
    {
      FirstOccurrencesAreFirst(t.rows);
      var m := FirstIndices(t.rows)[i];
      assert t.rows[m][j] == DeclaredCell(t.columns[j], p, t.rows[m][j]);
    }
  }

  /** With stable conversions the transform is idempotent: transforming
      its own output returns that output again. */
  lemma TransformIdempotent(raw: Table, p: Parsers)
    requires WellFormed(raw) && StableParsers(p) && Transformed(raw, p).Success?
    ensures WellFormed(Transformed(raw, p).value)
    ensures Transformed(Transformed(raw, p).value, p) == Transformed(raw, p)
  {
    var d := Deduplicated(Coerced(raw, p));
    CoercedIsSettled(raw, p);
    DeduplicatedSettled(Coerced(raw, p), p);
    CoercedSettled(d, p);
    FirstOccurrencesOfDistinct(d.rows);
  }
}
