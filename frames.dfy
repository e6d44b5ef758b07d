/** Values shared by the extraction and transformation stages: cells, rows,
    data frames, file-system paths and the directory of Parquet files. */
module Frames {

  datatype Option<+T> = None | Some(value: T)

  datatype Result<+T, +E> = Ok(value: T) | Err(error: E)

  /** A point in time as produced by the date parser; only its identity matters here. */
  datatype Instant = Instant(epochSeconds: int)

  /** One cell of a chunk: missing (NaN / NaT / None), raw text, a number or a timestamp.
      Numbers are exact reals; floating point is not modelled. */
  datatype Value = Missing | Text(text: string) | Number(number: real) | Timestamp(instant: Instant)

  /** A row maps each column name to its cell. */
  type Row = map<string, Value>

  /** A data frame: its set of column names and its rows in order. */
  datatype Table = Table(columns: set<string>, rows: seq<Row>)

  /** Every row of a data frame has exactly the frame's columns. */
  predicate WellFormed(t: Table)
  {
    forall i :: 0 <= i < |t.rows| ==> t.rows[i].Keys == t.columns
  }

  /** `DataFrame.empty`: true when either axis has length zero. */
  predicate IsEmpty(t: Table)
  {
    |t.rows| == 0 || t.columns == {}
  }

  /** A frame is empty exactly when it has no cells. */
  lemma IsEmptyNoCells(t: Table)
    ensures IsEmpty(t) <==> |t.rows| * |t.columns| == 0
  {
    if |t.rows| != 0 && |t.columns| != 0 {
      assert |t.rows| * |t.columns| >= |t.columns|;
    }
  }

  /** A file-system path as its sequence of components. */
  type Path = seq<string>

  /** `dir / name` on a `pathlib.Path`: append one component. */
  function Join(dir: Path, name: string): (p: Path)
    ensures Name(p) == name
    ensures |p| == |dir| + 1 && p[..|dir|] == dir
  {
    dir + [name]
  }

  /** `Path.name`: the last component, or the empty string for the root. */
  function Name(p: Path): (name: string)
    ensures p != [] ==> p == p[..|p| - 1] + [name]
  {
    if p == [] then "" else p[|p| - 1]
  }

  /** Two joined paths are equal exactly when their directories and names are. */
  lemma JoinInjective(d1: Path, n1: string, d2: Path, n2: string)
    ensures Join(d1, n1) == Join(d2, n2) <==> d1 == d2 && n1 == n2
  {
    if Join(d1, n1) == Join(d2, n2) {
      assert |d1| == |d2|;
      assert d1 == Join(d1, n1)[..|d1|] == Join(d2, n2)[..|d2|] == d2;
    }
  }

  /** The Parquet files on disk: each path holds one data frame. */
  type Store = map<Path, Table>

  /** Every file on disk holds a well-formed data frame. */
  predicate ValidStore(files: Store)
  {
    forall q :: q in files ==> WellFormed(files[q])
  }
}
