/** The chunk transformer: coerce the `date` column and eight numeric sales
    columns of every chunk, and write each clean chunk under the destination
    directory with the raw chunk's file name. */
module Transform {
  import opened Frames

  const DATE_COLUMN: string := "date"

  /** The numeric columns, in the order they are coerced. */
  const NUM_COLS: seq<string> := [
    "pack", "bottle_volume_ml", "state_bottle_cost",
    "state_bottle_retail", "sale_bottles",
    "sale_dollars", "sale_liters", "sale_gallons"
  ]

  /** Every column the cleaning rewrites, in the order it rewrites them. */
  const COERCED: seq<string> := [DATE_COLUMN] + NUM_COLS

  /** The two library parsers, as total functions: `None` is a coercion failure. */
  datatype Parsers = Parsers(date: Value -> Option<Instant>, number: Value -> Option<real>)

  /** `pd.to_datetime(..., errors="coerce")` on one cell: a missing cell stays
      missing, a timestamp is kept, anything else goes through the parser. */
  function ToDatetime(p: Parsers, v: Value): Option<Instant>
  {
    match v
    case Missing => None
    case Timestamp(t) => Some(t)
    case _ => p.date(v)
  }

  /** `pd.to_numeric(..., errors="coerce")` on one cell: a missing cell stays
      missing, a number is kept, anything else goes through the parser. */
  function ToNumeric(p: Parsers, v: Value): Option<real>
  {
    match v
    case Missing => None
    case Number(x) => Some(x)
    case _ => p.number(v)
  }

  /** The new value of a cell in coerced column `c`: the date column becomes a
      timestamp or the missing marker, a numeric column a number or zero. */
  function CoerceCell(p: Parsers, c: string, v: Value): (r: Value)
    ensures !r.Text?
    ensures c == DATE_COLUMN ==> (r.Missing? || r.Timestamp?) && (r.Missing? <==> ToDatetime(p, v).None?)
    ensures c == DATE_COLUMN && ToDatetime(p, v).Some? ==> r == Timestamp(ToDatetime(p, v).value)
    ensures c != DATE_COLUMN ==> r.Number?
    ensures c != DATE_COLUMN ==> r.number == if ToNumeric(p, v).Some? then ToNumeric(p, v).value else 0.0
  {
    if c == DATE_COLUMN then
      match ToDatetime(p, v)
      case Some(t) => Timestamp(t)
      case None => Missing
    else
      match ToNumeric(p, v)
      case Some(x) => Number(x)
      case None => Number(0.0)
  }

  /** A row with the columns of `done` coerced and every other cell as it was. */
  function CoerceColumns(p: Parsers, done: seq<string>, r: Row): Row
  {
    map c | c in r :: if c in done then CoerceCell(p, c, r[c]) else r[c]
  }

  /** `CoerceColumns` on every row, in order. */
  function CoerceAll(p: Parsers, done: seq<string>, rows: seq<Row>): (r: seq<Row>)
    ensures |r| == |rows|
    ensures forall i :: 0 <= i < |rows| ==> r[i] == CoerceColumns(p, done, rows[i])
  {
    seq(|rows|, i requires 0 <= i < |rows| => CoerceColumns(p, done, rows[i]))
  }

  /** One cleaned row. */
  function CleanRow(p: Parsers, r: Row): (r': Row)
    ensures r'.Keys == r.Keys
    ensures DATE_COLUMN in r ==>
              (r'[DATE_COLUMN] == Missing <==> ToDatetime(p, r[DATE_COLUMN]) == None)
    ensures DATE_COLUMN in r && ToDatetime(p, r[DATE_COLUMN]).Some? ==>
              r'[DATE_COLUMN] == Timestamp(ToDatetime(p, r[DATE_COLUMN]).value)
    ensures forall c :: c in NUM_COLS && c in r ==> r'[c].Number?
    ensures forall c :: c in NUM_COLS && c in r && ToNumeric(p, r[c]).Some? ==>
              r'[c] == Number(ToNumeric(p, r[c]).value)
    ensures forall c :: c in NUM_COLS && c in r && ToNumeric(p, r[c]).None? ==> r'[c] == Number(0.0)
    ensures forall c :: c in NUM_COLS && c in r && r[c] == Missing ==> r'[c] == Number(0.0)
    ensures forall c :: c in r && c != DATE_COLUMN && c !in NUM_COLS ==> r'[c] == r[c]
  {
    CoerceColumns(p, COERCED, r)
  }

  /** Every row cleaned, in order. */
  function CleanRows(p: Parsers, rows: seq<Row>): (r: seq<Row>)
    ensures |r| == |rows|
    ensures forall i :: 0 <= i < |rows| ==> r[i] == CleanRow(p, rows[i])
  {
    seq(|rows|, i requires 0 <= i < |rows| => CleanRow(p, rows[i]))
  }

  /** The position in `cols` of the first name that is not a column, if any. */
  function FirstMissing(columns: set<string>, cols: seq<string>): (r: Option<nat>)
    ensures r.Some? ==> r.value < |cols| && cols[r.value] !in columns
    ensures r.Some? ==> forall j :: 0 <= j < r.value ==> cols[j] in columns
    ensures r.None? <==> forall j :: 0 <= j < |cols| ==> cols[j] in columns
    decreases |cols|
  {
    if cols == [] then None
    else if cols[0] !in columns then Some(0)
    else match FirstMissing(columns, cols[1..])
      case None => None
      case Some(i) => Some(i + 1)
  }

  /** `_clean_chunk` on a frame's value: the clean frame, or the first coerced
      column the frame lacks (a `KeyError`). */
  function CleanTable(p: Parsers, t: Table): (r: Result<Table, string>)
    ensures r.Ok? <==> forall c :: c in COERCED ==> c in t.columns
    ensures r.Err? ==> r.error in COERCED && r.error !in t.columns
    ensures r.Err? ==> FirstMissing(t.columns, COERCED).Some? &&
                       r.error == COERCED[FirstMissing(t.columns, COERCED).value]
    ensures r.Ok? ==> r.value.columns == t.columns && r.value.rows == CleanRows(p, t.rows)
    ensures r.Ok? && WellFormed(t) ==> WellFormed(r.value)
  {
    match FirstMissing(t.columns, COERCED)
    case Some(i) => Err(COERCED[i])
    case None => Ok(Table(t.columns, CleanRows(p, t.rows)))
  }

  // ---------------------------------------------------------------------------
  // Properties of the cleaning

  /** Cleaning is idempotent: a clean row cleans to itself, because timestamps
      and numbers pass through the coercions unchanged. */
  lemma CleanRowIdempotent(p: Parsers, r: Row)
    ensures CleanRow(p, CleanRow(p, r)) == CleanRow(p, r)
  {
    var once := CleanRow(p, r);
    forall c | c in once
      ensures CleanRow(p, once)[c] == once[c]
    {
      if c in COERCED {
        assert CleanRow(p, once)[c] == CoerceCell(p, c, once[c]);
        assert once[c] == CoerceCell(p, c, r[c]);
      }
    }
  }

  /** The coerced columns are pairwise distinct. */
  lemma CoercedDistinct()
    ensures forall i, j :: 0 <= i < j < |COERCED| ==> COERCED[i] != COERCED[j]
  {
  }

  /** Coercing one more column `c` of a row rewrites that one cell. */
  lemma ColumnStep(p: Parsers, done: seq<string>, c: string, r: Row)
    requires c in r && c !in done
    ensures CoerceColumns(p, done + [c], r) == CoerceColumns(p, done, r)[c := CoerceCell(p, c, r[c])]
  {
  }

  /** Every row has column `c`. */
  predicate HasColumn(rows: seq<Row>, c: string)
  {
    forall i :: 0 <= i < |rows| ==> c in rows[i]
  }

  /** `df[c] = coerce(df[c])` on the value of a frame: column `c` of every row rewritten. */
  function SetColumn(p: Parsers, c: string, rows: seq<Row>): (r: seq<Row>)
    requires HasColumn(rows, c)
    ensures |r| == |rows|
    ensures forall i :: 0 <= i < |rows| ==> r[i] == rows[i][c := CoerceCell(p, c, rows[i][c])]
  {
    seq(|rows|, i requires 0 <= i < |rows| => rows[i][c := CoerceCell(p, c, rows[i][c])])
  }

  lemma CoerceNothing(p: Parsers, rows: seq<Row>)
    ensures CoerceAll(p, COERCED[..0], rows) == rows
  {
    forall i | 0 <= i < |rows|
      ensures CoerceColumns(p, COERCED[..0], rows[i]) == rows[i]
    {
      assert COERCED[..0] == [];
    }
  }

  lemma CoercedPrefixStep(j: nat)
    requires j < |COERCED|
    ensures COERCED[..j + 1] == COERCED[..j] + [COERCED[j]]
    ensures COERCED[j] !in COERCED[..j]
  {
    CoercedDistinct();
  }

  /** Rewriting the next coerced column extends the prefix of coerced columns by one. */
  lemma NextColumn(p: Parsers, j: nat, rows: seq<Row>)
    requires j < |COERCED| && HasColumn(rows, COERCED[j])
    ensures HasColumn(CoerceAll(p, COERCED[..j], rows), COERCED[j])
    ensures SetColumn(p, COERCED[j], CoerceAll(p, COERCED[..j], rows)) == CoerceAll(p, COERCED[..j + 1], rows)
  {
    CoercedPrefixStep(j);
    var c := COERCED[j];
    forall i | 0 <= i < |rows|
      ensures SetColumn(p, c, CoerceAll(p, COERCED[..j], rows))[i] == CoerceAll(p, COERCED[..j + 1], rows)[i]
    {
      ColumnStep(p, COERCED[..j], c, rows[i]);
    }
  }

  /** Coercing a prefix of the columns keeps every row's set of columns. */
  lemma CoerceAllKeys(p: Parsers, done: seq<string>, rows: seq<Row>, columns: set<string>)
    requires forall i :: 0 <= i < |rows| ==> rows[i].Keys == columns
    ensures forall i :: 0 <= i < |rows| ==> CoerceAll(p, done, rows)[i].Keys == columns
  {
  }

  lemma AllColumns(p: Parsers, rows: seq<Row>)
    ensures CoerceAll(p, COERCED[..|COERCED|], rows) == CleanRows(p, rows)
  {
    assert COERCED[..|COERCED|] == COERCED;
  }

  /** The first absent name is at `k` when it is absent and all before it are present. */
  lemma {:induction false} FirstMissingAt(columns: set<string>, cols: seq<string>, k: nat)
    requires k < |cols| && cols[k] !in columns
    requires forall j :: 0 <= j < k ==> cols[j] in columns
    ensures FirstMissing(columns, cols) == Some(k)
    decreases k
  {
    if k > 0 {
      FirstMissingAt(columns, cols[1..], k - 1);
    }
  }

  // ---------------------------------------------------------------------------
  // `_clean_chunk`, in place

  /** `df[c] = ...`: rewrite column `c` of every row. */
  method CoerceColumn(p: Parsers, c: string, a: array<Row>)
    requires HasColumn(a[..], c)
    modifies a
    ensures a[..] == SetColumn(p, c, old(a[..]))
  {
    var i := 0;
    while i < a.Length
      invariant 0 <= i <= a.Length
      invariant forall k :: 0 <= k < i ==> a[k] == old(a[k])[c := CoerceCell(p, c, old(a[k])[c])]
      invariant forall k :: i <= k < a.Length ==> a[k] == old(a[k])
    {
      a[i] := a[i][c := CoerceCell(p, c, a[i][c])];
      i := i + 1;
    }
  }

  /** The cleaning state after the first `j` coerced columns: all of them are
      columns of the frame, and the rows hold those columns coerced. */
  ghost predicate Cleaned(p: Parsers, columns: set<string>, rows: seq<Row>, j: nat, cur: seq<Row>)
  {
    && j <= |COERCED|
    && (forall i :: 0 <= i < |rows| ==> rows[i].Keys == columns)
    && (forall k :: 0 <= k < j ==> COERCED[k] in columns)
    && cur == CoerceAll(p, COERCED[..j], rows)
  }

  lemma CleanStart(p: Parsers, columns: set<string>, rows: seq<Row>)
    requires forall i :: 0 <= i < |rows| ==> rows[i].Keys == columns
    ensures Cleaned(p, columns, rows, 0, rows)
  {
    CoerceNothing(p, rows);
  }

  /** Rewriting the next coerced column, when the frame has it, advances the state. */
  lemma CleanStep(p: Parsers, columns: set<string>, rows: seq<Row>, j: nat, cur: seq<Row>)
    requires Cleaned(p, columns, rows, j, cur)
    requires j < |COERCED| && COERCED[j] in columns
    ensures HasColumn(cur, COERCED[j])
    ensures Cleaned(p, columns, rows, j + 1, SetColumn(p, COERCED[j], cur))
  {
    CoerceAllKeys(p, COERCED[..j], rows, columns);
    NextColumn(p, j, rows);
  }

  /** A next coerced column the frame lacks is the first one missing. */
  lemma CleanStop(p: Parsers, columns: set<string>, rows: seq<Row>, j: nat, cur: seq<Row>)
    requires Cleaned(p, columns, rows, j, cur)
    requires j < |COERCED| && COERCED[j] !in columns
    ensures FirstMissing(columns, COERCED) == Some(j)
  {
    FirstMissingAt(columns, COERCED, j);
  }

  /** After all coerced columns the rows are clean. */
  lemma CleanEnd(p: Parsers, columns: set<string>, rows: seq<Row>, cur: seq<Row>)
    requires Cleaned(p, columns, rows, |COERCED|, cur)
    ensures FirstMissing(columns, COERCED).None? && cur == CleanRows(p, rows)
  {
    AllColumns(p, rows);
  }

  /** `_clean_chunk(df)` on a frame with the given columns whose rows are held in
      `a`: rewrites `date`, then each numeric column. A coerced column the frame
      lacks stops it with that column's name, the columns before it already
      rewritten. */
  method CleanChunk(p: Parsers, columns: set<string>, a: array<Row>) returns (missing: Option<string>)
    requires forall i :: 0 <= i < a.Length ==> a[i].Keys == columns
    modifies a
    ensures missing.None? <==> FirstMissing(columns, COERCED).None?
    ensures missing.None? ==> a[..] == CleanRows(p, old(a[..]))
    ensures missing.Some? ==>
              var k := FirstMissing(columns, COERCED).value;
              missing.value == COERCED[k] && a[..] == CoerceAll(p, COERCED[..k], old(a[..]))
  {
    ghost var rows := a[..];
    CleanStart(p, columns, rows);
    if DATE_COLUMN !in columns {
      CleanStop(p, columns, rows, 0, a[..]);
      return Some(DATE_COLUMN);
    }
    CleanStep(p, columns, rows, 0, a[..]);
    CoerceColumn(p, DATE_COLUMN, a);
    var j := 0;
    while j < |NUM_COLS|
      invariant 0 <= j <= |NUM_COLS|
      invariant Cleaned(p, columns, rows, j + 1, a[..])
    {
      var c := NUM_COLS[j];
      assert c == COERCED[j + 1];
      if c !in columns {
        CleanStop(p, columns, rows, j + 1, a[..]);
        return Some(c);
      }
      CleanStep(p, columns, rows, j + 1, a[..]);
      CoerceColumn(p, c, a);
      j := j + 1;
    }
    CleanEnd(p, columns, rows, a[..]);
    return None;
  }


  // ---------------------------------------------------------------------------
  // `transform_parquet_chunks`

  datatype Error = FileNotFound(path: Path) | KeyError(column: string)

  /** The outcome of a run: the output paths or the error that stopped it, and
      the directory afterwards (writes made before an error stay). */
  datatype Run = Run(result: Result<seq<Path>, Error>, files: Store)

  /** Put `outs` in front of a successful run's output paths. */
  function PrependAll(outs: seq<Path>, r: Run): Run
  {
    match r.result
    case Ok(ps) => Run(Ok(outs + ps), r.files)
    case Err(_) => r
  }

  /** The run over `src`, one chunk after the other: read the file, clean it,
      write it to `destDir / name`. */
  function RunTransform(p: Parsers, files: Store, src: seq<Path>, destDir: Path): (r: Run)
    ensures r.result.Ok? ==> |r.result.value| == |src|
    ensures r.result.Err? && r.result.error.FileNotFound? ==> r.result.error.path in src
    ensures r.result.Err? && r.result.error.KeyError? ==> r.result.error.column in COERCED
    decreases |src|
  {
    if src == [] then Run(Ok([]), files)
    else if src[0] !in files then Run(Err(FileNotFound(src[0])), files)
    else match CleanTable(p, files[src[0]])
      case Err(c) => Run(Err(KeyError(c)), files)
      case Ok(t) =>
        var out := Join(destDir, Name(src[0]));
        PrependAll([out], RunTransform(p, files[out := t], src[1..], destDir))
  }

  lemma PrependAllNil(r: Run)
    ensures PrependAll([], r) == r
  {
    if r.result.Ok? {
      assert [] + r.result.value == r.result.value;
    }
  }

  lemma PrependAllSnoc(outs: seq<Path>, out: Path, r: Run)
    ensures PrependAll(outs + [out], r) == PrependAll(outs, PrependAll([out], r))
  {
    if r.result.Ok? {
      assert (outs + [out]) + r.result.value == outs + ([out] + r.result.value);
    }
  }

  /** The output path of every input: the destination directory joined with its file name. */
  function OutputPaths(src: seq<Path>, destDir: Path): (outs: seq<Path>)
    ensures |outs| == |src|
    ensures forall k :: 0 <= k < |src| ==> outs[k] == Join(destDir, Name(src[k]))
  {
    seq(|src|, k requires 0 <= k < |src| => Join(destDir, Name(src[k])))
  }

  lemma OutputPathsTail(src: seq<Path>, destDir: Path)
    requires src != []
    ensures OutputPaths(src, destDir) == [Join(destDir, Name(src[0]))] + OutputPaths(src[1..], destDir)
  {
  }

  /** A successful run returns one path per input, in input order, each the
      destination directory joined with the input's file name. */
  lemma {:induction false} TransformOutputs(p: Parsers, files: Store, src: seq<Path>, destDir: Path)
    requires RunTransform(p, files, src, destDir).result.Ok?
    ensures RunTransform(p, files, src, destDir).result.value == OutputPaths(src, destDir)
    decreases |src|
  {
    if src != [] {
      var t := CleanTable(p, files[src[0]]).value;
      var out := Join(destDir, Name(src[0]));
      TransformOutputs(p, files[out := t], src[1..], destDir);
      OutputPathsTail(src, destDir);
    }
  }

  /** Every file in `src` on disk with all coerced columns: the run succeeds. */
  ghost predicate Readable(files: Store, src: seq<Path>)
  {
    forall k :: 0 <= k < |src| ==> src[k] in files && forall c :: c in COERCED ==> c in files[src[k]].columns
  }

  /** When every input exists and has the coerced columns, the run succeeds
      (a clean chunk written over a later input keeps its columns). */
  lemma {:induction false} TransformSucceeds(p: Parsers, files: Store, src: seq<Path>, destDir: Path)
    requires Readable(files, src)
    ensures RunTransform(p, files, src, destDir).result.Ok?
    decreases |src|
  {
    if src != [] {
      var t := CleanTable(p, files[src[0]]).value;
      var out := Join(destDir, Name(src[0]));
      assert Readable(files[out := t], src[1..]);
      TransformSucceeds(p, files[out := t], src[1..], destDir);
    }
  }

  /** A run writes only output paths: every other file is as it was, whether
      the run succeeds or stops early. */
  lemma {:induction false} TransformFrame(p: Parsers, files: Store, src: seq<Path>, destDir: Path, q: Path)
    requires q !in OutputPaths(src, destDir)
    ensures var after := RunTransform(p, files, src, destDir).files;
            (q in after <==> q in files) && (q in files ==> after[q] == files[q])
    decreases |src|
  {
    if src != [] && src[0] in files && CleanTable(p, files[src[0]]).Ok? {
      var t := CleanTable(p, files[src[0]]).value;
      var out := Join(destDir, Name(src[0]));
      OutputPathsTail(src, destDir);
      TransformFrame(p, files[out := t], src[1..], destDir, q);
    }
  }

  /** Inputs with distinct file names, none of them an output path. */
  ghost predicate SeparateOutputs(src: seq<Path>, destDir: Path)
  {
    && (forall j, k :: 0 <= j < k < |src| ==> Name(src[j]) != Name(src[k]))
    && (forall k :: 0 <= k < |src| ==> src[k] !in OutputPaths(src, destDir))
  }

  lemma SeparateOutputsTail(src: seq<Path>, destDir: Path)
    requires src != [] && SeparateOutputs(src, destDir)
    ensures SeparateOutputs(src[1..], destDir)
    ensures Join(destDir, Name(src[0])) !in OutputPaths(src[1..], destDir)
    ensures forall k :: 0 <= k < |src[1..]| ==> src[1..][k] != Join(destDir, Name(src[0]))
  {
    OutputPathsTail(src, destDir);
    var outs := OutputPaths(src[1..], destDir);
    forall k | 0 <= k < |outs|
      ensures outs[k] != Join(destDir, Name(src[0]))
    {
      JoinInjective(destDir, Name(src[0]), destDir, Name(src[k + 1]));
    }
  }

  /** With separate outputs, after a successful run the k-th output path holds
      the clean version of the k-th input. */
  lemma {:induction false} TransformContentAt(p: Parsers, files: Store, src: seq<Path>, destDir: Path, k: nat)
    requires SeparateOutputs(src, destDir)
    requires RunTransform(p, files, src, destDir).result.Ok?
    requires k < |src|
    ensures src[k] in files && CleanTable(p, files[src[k]]).Ok?
    ensures var after := RunTransform(p, files, src, destDir).files;
            Join(destDir, Name(src[k])) in after &&
            after[Join(destDir, Name(src[k]))] == CleanTable(p, files[src[k]]).value
    decreases k
  {
    var t := CleanTable(p, files[src[0]]).value;
    var out := Join(destDir, Name(src[0]));
    SeparateOutputsTail(src, destDir);
    if k == 0 {
      TransformFrame(p, files[out := t], src[1..], destDir, out);
    } else {
      assert src[1..][k - 1] == src[k];
      TransformContentAt(p, files[out := t], src[1..], destDir, k - 1);
    }
  }

  /** When the outputs are separate from the inputs and from each other, a
      successful run leaves at each output path the clean version of its
      input, and every other file as it was. */
  lemma TransformContents(p: Parsers, files: Store, src: seq<Path>, destDir: Path)
    requires SeparateOutputs(src, destDir)
    requires RunTransform(p, files, src, destDir).result.Ok?
    ensures var after := RunTransform(p, files, src, destDir).files;
            && (forall k :: 0 <= k < |src| ==>
                  src[k] in files && CleanTable(p, files[src[k]]).Ok? &&
                  OutputPaths(src, destDir)[k] in after &&
                  after[OutputPaths(src, destDir)[k]] == CleanTable(p, files[src[k]]).value)
            && (forall q :: q !in OutputPaths(src, destDir) ==>
                  (q in after <==> q in files) && (q in files ==> after[q] == files[q]))
  {
    forall k | 0 <= k < |src|
      ensures var after := RunTransform(p, files, src, destDir).files;
              src[k] in files && CleanTable(p, files[src[k]]).Ok? &&
              OutputPaths(src, destDir)[k] in after &&
              after[OutputPaths(src, destDir)[k]] == CleanTable(p, files[src[k]]).value
    {
      TransformContentAt(p, files, src, destDir, k);
    }
    forall q | q !in OutputPaths(src, destDir)
      ensures var after := RunTransform(p, files, src, destDir).files;
              (q in after <==> q in files) && (q in files ==> after[q] == files[q])
    {
      TransformFrame(p, files, src, destDir, q);
    }
  }

  /** The run state after `i` inputs: the paths so far in front of the rest of the run. */
  ghost predicate RunInvariant(p: Parsers, files: Store, src: seq<Path>, destDir: Path,
                               i: nat, outPaths: seq<Path>, written: Store)
  {
    && i <= |src|
    && ValidStore(written)
    && RunTransform(p, files, src, destDir) == PrependAll(outPaths, RunTransform(p, written, src[i..], destDir))
  }

  lemma RunStart(p: Parsers, files: Store, src: seq<Path>, destDir: Path)
    requires ValidStore(files)
    ensures RunInvariant(p, files, src, destDir, 0, [], files)
  {
    assert src[0..] == src;
    PrependAllNil(RunTransform(p, files, src, destDir));
  }

  /** Reading, cleaning and writing input `i` advances the run by one. */
  lemma RunStep(p: Parsers, files: Store, src: seq<Path>, destDir: Path,
                i: nat, outPaths: seq<Path>, written: Store, clean: Table)
    requires RunInvariant(p, files, src, destDir, i, outPaths, written)
    requires i < |src| && src[i] in written && CleanTable(p, written[src[i]]) == Ok(clean)
    ensures RunInvariant(p, files, src, destDir, i + 1, outPaths + [Join(destDir, Name(src[i]))],
                         written[Join(destDir, Name(src[i])) := clean])
  {
    var out := Join(destDir, Name(src[i]));
    assert src[i..][0] == src[i] && src[i..][1..] == src[i + 1..];
    PrependAllSnoc(outPaths, out, RunTransform(p, written[out := clean], src[i + 1..], destDir));
    assert WellFormed(written[src[i]]);
  }

  /** Input `i` missing or lacking a coerced column stops the run with that error. */
  lemma RunStop(p: Parsers, files: Store, src: seq<Path>, destDir: Path,
                i: nat, outPaths: seq<Path>, written: Store, e: Error)
    requires RunInvariant(p, files, src, destDir, i, outPaths, written)
    requires i < |src|
    requires src[i] !in written ==> e == FileNotFound(src[i])
    requires src[i] in written ==> CleanTable(p, written[src[i]]).Err? && e == KeyError(CleanTable(p, written[src[i]]).error)
    ensures RunTransform(p, files, src, destDir) == Run(Err(e), written)
  {
    assert src[i..][0] == src[i];
  }

  lemma RunEnd(p: Parsers, files: Store, src: seq<Path>, destDir: Path, outPaths: seq<Path>, written: Store)
    requires RunInvariant(p, files, src, destDir, |src|, outPaths, written)
    ensures RunTransform(p, files, src, destDir) == Run(Ok(outPaths), written)
  {
    assert src[|src|..] == [];
    assert outPaths + [] == outPaths;
  }

  /** `transform_parquet_chunks`: returns the output paths (or the error that
      stopped the run) and the directory afterwards. */
  method TransformParquetChunks(p: Parsers, files: Store, srcPaths: seq<Path>, destDir: Path)
    returns (result: Result<seq<Path>, Error>, written: Store)
    requires ValidStore(files)
    ensures Run(result, written) == RunTransform(p, files, srcPaths, destDir)
    ensures result.Ok? ==> result.value == OutputPaths(srcPaths, destDir)
    ensures Readable(files, srcPaths) ==> result.Ok?
    ensures ValidStore(written)
  {
    if RunTransform(p, files, srcPaths, destDir).result.Ok? {
      TransformOutputs(p, files, srcPaths, destDir);
    }
    if Readable(files, srcPaths) {
      TransformSucceeds(p, files, srcPaths, destDir);
    }
    var outPaths: seq<Path> := [];
    written := files;
    var i := 0;
    RunStart(p, files, srcPaths, destDir);
    while i < |srcPaths|
      invariant RunInvariant(p, files, srcPaths, destDir, i, outPaths, written)
    {
      var src := srcPaths[i];
      if src !in written {
        result := Err(FileNotFound(src));
        RunStop(p, files, srcPaths, destDir, i, outPaths, written, result.error);
        return;
      }
      var t := written[src];
      var a := new Row[|t.rows|](k requires 0 <= k < |t.rows| => t.rows[k]);
      assert a[..] == t.rows;
      assert WellFormed(t);
      var missing := CleanChunk(p, t.columns, a);
      if missing.Some? {
        result := Err(KeyError(missing.value));
        RunStop(p, files, srcPaths, destDir, i, outPaths, written, result.error);
        return;
      }
      var out := Join(destDir, Name(src));
      var clean := Table(t.columns, a[..]);
      RunStep(p, files, srcPaths, destDir, i, outPaths, written, clean);
      written := written[out := clean];
      outPaths := outPaths + [out];
      i := i + 1;
    }
    result := Ok(outPaths);
    RunEnd(p, files, srcPaths, destDir, outPaths, written);
  }
}
