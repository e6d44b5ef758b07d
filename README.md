# Iowa Liquor Sales: chunked extraction and chunk cleaning, in Dafny

This project models the streaming core of the Iowa Liquor Sales ETL pipeline and
proves properties of it:

- **The paginated extractor** (`extract_to_parquet`). It asks the sales
  endpoint for pages of at most `CHUNK_ROWS` rows (`$limit` / `$offset`),
  starting at offset 0, and stops at the first empty page. Each non-empty page
  is written to `dest_dir / chunk_{page_no:05d}.parquet`. The offset then
  advances by the number of rows received and the page number by one. The
  function returns the chunk paths in page order.
- **The chunk transformer** (`_clean_chunk`, `transform_parquet_chunks`). It
  reads each raw chunk. The `date` column goes through
  `pd.to_datetime(errors="coerce")`, so unparsable values become the missing
  marker. The eight numeric sales columns go through
  `pd.to_numeric(errors="coerce").fillna(0)`, so unparsable or missing values
  become 0. Every other column is left as it is. Each clean chunk is written
  to `dest_dir / p.name`, and the output paths come back in input order.

Files and modules:

- `frames.dfy`, module `Frames`: the data model. A cell is a `Value` (missing,
  text, number or timestamp). A `Row` maps column names to cells. A `Table`
  has a column set and rows in order, which is a data frame. A `Path` is a
  sequence of components, so `dir / name` is `Join`. A `Store` maps paths to
  tables and stands for the Parquet files on disk.
- `naming.dfy`, module `Naming`: the `05d` formatting and the chunk file names,
  with a parser that reads the page number back.
- `extract.dfy`, module `Extract`:
  - `FetchPage` is one page request.
  - `Pages` is the sequence of pages the loop writes.
  - `PagingLoop` is the extraction loop. It is an imperative `while true`
    loop over `offset` and `page_no`, proved against `Pages`, `ChunkPaths` and
    `WriteChunks`.
  - `ExtractToParquet` is `extract_to_parquet`. It calls `PagingLoop` and adds
    the outcome lemmas about the files written and the row total.
- `transform.dfy`, module `Transform`:
  - `CleanRow`, `CleanRows` and `CleanTable` are the value-level
    specification of `_clean_chunk`.
  - `CleanChunk` is the in-place version. It rewrites columns of an `array`
    of rows, one column after the other, as the source does. It stops with
    the name of the first coerced column the frame lacks, which is pandas'
    `KeyError`.
  - `RunTransform` is the specification of a whole run.
  - `TransformParquetChunks` is the loop over the source paths, proved
    against `RunTransform`.
- `pipeline.dfy`, module `Pipeline`: the extraction into the raw directory
  followed by the transformation into the clean directory, as the DAG chains
  them.
- `scenarios.dfy`, module `Scenarios`: examples of the cleaning on small rows and chunks.

The library parsers behind `pd.to_datetime` and `pd.to_numeric` are passed in
as functions (`Transform.Parsers`). `None` stands for a coercion failure. Two
facts about pandas are built into the model:

- A missing cell stays missing.
- A value that already has the target type is kept.

The HTTP endpoint is abstracted as a `source` table: the rows it holds for the
requested date range, in the endpoint's order. A request with `$limit` L and
`$offset` o returns rows `o` up to `o+L` of that table, or no rows past its
end. The file system is a value the operations take and return. The
extractor's `total` result is the row count it prints at the end
(`offset`).

## Model

| member | source | states |
|---|---|---|
| Frames.IsEmpty | src/extract.py:48 | `df.empty`: true when either axis has length zero, no rows or no columns |
| Frames.IsEmptyNoCells | src/extract.py:48 | a frame is `df.empty` exactly when it has no cells (rows × columns is 0) |
| Frames.Name | src/transform.py:35 | `p.name` is the last component: the path is its parent with the name appended |
| Frames.Join | src/transform.py:35 | `dest_dir / name`, as here and for the chunk paths at src/extract.py:51: the new path's name is `name` and its parent is `dest_dir` |
| Frames.JoinInjective | src/transform.py:35 | two joined paths are equal exactly when their directories and names are |
| Naming.Format05dSpec | src/extract.py:51 | `{page_no:05d}` reads back as `page_no`, is at least five digits, and exactly five iff `page_no < 100000` |
| Naming.ChunkName | src/extract.py:51 | `chunk_{page_no:05d}.parquet`: the prefix, the page number formatted with `05d`, the suffix |
| Naming.ChunkNameShape | src/extract.py:51 | a chunk name starts with `chunk_`, ends with `.parquet`, and has at least five digits in between |
| Naming.ChunkNameRoundTrip | src/extract.py:51 | the page number can be read back from `chunk_{page_no:05d}.parquet`; the name has the fixed width iff the number is below 100000 |
| Naming.ChunkNameInjective | src/extract.py:51 | two pages get the same chunk name iff they have the same number, so chunk files never overwrite each other |
| Extract.FetchPage | src/extract.py:18-31 | for a response pandas can read (see "## Left out"), a page has the dataset's columns and at most `$limit` rows, which are the rows from `$offset` on; it is empty exactly when the offset is past the end or the limit is 0; before the end it is full unless it is the last page |
| Extract.Pages | src/extract.py:44-57 | the pages the `while True` loop writes, from an offset on: the page fetched there, then the pages from `offset + len(df)`, stopping at the first `df.empty`; its properties are the `Pages…` lemmas below |
| Extract.PagesEmpty | src/extract.py:47-49 | nothing is written exactly when the offset is past the end, `CHUNK_ROWS` is 0 or the dataset has no columns (a case in which the program raises instead, see "## Left out") |
| Extract.PagesWellFormed | src/extract.py:47-52 | every page of a well-formed dataset is a well-formed frame |
| Extract.DefaultChunkCount | src/config.py:19 | with the default `CHUNK_ROWS` of 50 000 the number of chunks is the row count over 50 000, rounded up |
| Extract.PagesBounded | src/extract.py:46-53 | every chunk that is written holds between 1 and `CHUNK_ROWS` rows, under the dataset's columns, and is not `df.empty` |
| Extract.PagesAtOffsets | src/extract.py:44-57 | advancing the offset by `len(df)` requests page k at offset `k * CHUNK_ROWS`, and that offset is inside the dataset |
| Extract.PagesPartition | src/extract.py:44-57 | with `CHUNK_ROWS >= 1` and at least one column, the chunks concatenated in page order are exactly the dataset's rows, each once and in order |
| Extract.PagesCount | src/extract.py:44-57 | the number of chunks is the row count divided by `CHUNK_ROWS`, rounded up |
| Extract.PagesNone | src/extract.py:47-49 | with `CHUNK_ROWS` 0 the first page is empty and nothing is written; the model says the same of a dataset without columns, where the program raises instead (see "## Left out") |
| Extract.ChunkPaths | src/extract.py:51-53 | the k-th returned path is `dest_dir / chunk_{k:05d}.parquet` |
| Extract.ChunkPathsDistinct | src/extract.py:51 | the chunk paths of one run are pairwise distinct |
| Extract.WriteChunksContents | src/extract.py:52 | after writing chunks to distinct paths, each path holds its own chunk and every other file is unchanged |
| Extract.ExtractionValid | src/extract.py:47-53 | writing the pages of a well-formed dataset leaves every file a well-formed frame |
| Extract.ExtractionOutcome | src/extract.py:34-60 | after the run, chunk file k holds page k and other files are as before; with `CHUNK_ROWS >= 1` and at least one column the rows written add up to the dataset's size |
| Extract.LoopStep | src/extract.py:47-57 | one turn of the loop writes the page, appends its path, advances the offset by `len(df)` and the page number by 1, and keeps the loop's bookkeeping |
| Extract.LoopExit | src/extract.py:47-49 | at the first empty page the pages written so far are all the pages, and the offset is their total row count |
| Extract.PagingLoop | src/extract.py:41-59 | the `while True` loop returns the chunk paths of all pages, the directory with those chunks written, and the total row count |
| Extract.ExtractToParquet | src/extract.py:34-60 | returns `dest_dir / chunk_{k:05d}.parquet` for every page k in order; file k holds page k; other files are unchanged; the printed total is the dataset's row count; with `CHUNK_ROWS` 0 nothing is written (the model says the same of a dataset without columns, where the program raises, see "## Left out"); for a well-formed dataset and directory every file afterwards is a well-formed frame, so the result can be handed to the transformer |
| Transform.ToDatetime | src/transform.py:12 | the definition of `pd.to_datetime(errors="coerce")` on one cell: NaN/NaT stays missing, a `Timestamp` is kept, other cells go to the date parser; what the cleaning promises about it is stated by `CoerceCell` and `CleanRow` |
| Transform.ToNumeric | src/transform.py:21 | the definition of `pd.to_numeric(errors="coerce")` on one cell: NaN stays missing, a number is kept, other cells go to the number parser; what the cleaning promises about it is stated by `CoerceCell` and `CleanRow` |
| Transform.CoerceCell | src/transform.py:12-21 | a coerced cell is never raw text: in `date` it is a timestamp, or missing exactly when parsing fails; in a numeric column it is always a number, the parsed one or 0 (`fillna(0)`) |
| Transform.CleanRow | src/transform.py:11-23 | a cleaned row keeps its columns; `date` is missing iff `to_datetime` fails and is otherwise the parsed timestamp; each numeric column is always a number, the parsed one or 0 (also for missing cells); every other column is unchanged |
| Transform.CleanRows | src/transform.py:11-23 | the clean chunk has the same number of rows, in the same order, each row cleaned |
| Transform.FirstMissing | src/transform.py:12-21 | finds the first of the coerced columns, in coercion order, that the frame lacks; none iff all are present |
| Transform.CleanTable | src/transform.py:11-23 | cleaning succeeds iff the frame has `date` and all eight numeric columns; otherwise it fails with a `KeyError` on the first coerced column, in the order `date`, `pack`, `bottle_volume_ml`, …, that is absent; on success it keeps the columns, cleans every row, and keeps the frame well formed |
| Transform.CleanRowIdempotent | src/transform.py:11-23 | cleaning a clean row changes nothing, so re-running the transformer on its own output is harmless |
| Transform.SetColumn | src/transform.py:21 | `df[c] = coerce(df[c])` rewrites cell `c` of every row and nothing else in it |
| Transform.NextColumn | src/transform.py:12-21 | coercing the next column after the ones already done gives the row with one more coerced column |
| Transform.FirstMissingAt | src/transform.py:12-21 | a column that is absent, with every earlier one present, is the first missing one |
| Transform.CoerceColumn | src/transform.py:21 | the in-place column rewrite leaves the array equal to `SetColumn` of its old rows |
| Transform.CleanChunk | src/transform.py:11-23 | the in-place `_clean_chunk`: with all coerced columns present the array holds the clean rows; otherwise it stops at the first missing column with that name, the earlier columns already rewritten |
| Transform.RunTransform | src/transform.py:31-37 | the whole run over the source paths: on success one output path per input; a `FileNotFoundError` names one of the inputs; a `KeyError` names a coerced column |
| Transform.OutputPaths | src/transform.py:35 | output path k is `dest_dir / src_paths[k].name` |
| Transform.TransformOutputs | src/transform.py:30-40 | a successful run returns one path per input, in input order, `dest_dir / p.name` |
| Transform.TransformSucceeds | src/transform.py:32-33 | when every input exists and has the coerced columns, the run succeeds |
| Transform.TransformFrame | src/transform.py:35-37 | a run writes only output paths; every other file is as it was, whether the run succeeds or stops |
| Transform.TransformContentAt | src/transform.py:32-37 | with distinct input names and no output over an input, output k holds input k cleaned |
| Transform.TransformContents | src/transform.py:26-40 | after a successful run each output holds its input cleaned and every non-output file is unchanged |
| Transform.RunStep | src/transform.py:32-38 | reading, cleaning and writing one input advances the run by one path |
| Transform.RunStop | src/transform.py:32-33 | a missing input (`FileNotFoundError`) or a missing column (`KeyError`) stops the run with that error, keeping the earlier writes |
| Transform.TransformParquetChunks | src/transform.py:26-40 | the loop returns what `RunTransform` specifies: on success the paths `dest_dir / p.name` in input order, always the directory afterwards, and it succeeds whenever every input is readable |
| Pipeline.ChunkPathsSeparate | src/transform.py:35 | transforming the raw chunks into another directory gives the clean chunk paths `clean / chunk_{k:05d}.parquet`, and they never overwrite a raw chunk |
| Pipeline.CleanRowsAppend | src/transform.py:11-23 | cleaning concatenated rows is the same as concatenating the cleaned parts |
| Pipeline.CleanPagesFlatten | src/transform.py:26-40 | the clean chunks concatenated are the concatenated raw chunks cleaned |
| Pipeline.TransformExtracted | dags/iowa_liquor_dag.py:29-43 | when the dataset has `date` and all eight numeric columns and `CLEAN_DIR` differs from `RAW_DIR`, transforming an extraction's chunks into `CLEAN_DIR` succeeds, clean chunk k holds page k cleaned, and the raw chunks stay in place |
| Pipeline.CleanPagesCover | dags/iowa_liquor_dag.py:32-43 | the clean chunks together hold every row of the dataset, cleaned, once each and in order |
| Pipeline.ExtractThenTransform | dags/iowa_liquor_dag.py:29-43 | extract into `RAW_DIR` with `CHUNK_ROWS >= 1`, then transform into a different `CLEAN_DIR`, for a dataset with `date` and all eight numeric columns: the run returns `CLEAN_DIR / chunk_{k:05d}.parquet` in page order, chunk k is page k cleaned, the raw chunks remain, and the clean chunks together are the whole dataset cleaned |
| Pipeline.ExtractAndTransform | dags/iowa_liquor_dag.py:32-43 | the extract task's paths passed to the transform task: the raw paths are the chunk paths, every file stays well formed, and when the dataset has the coerced columns and the directories differ the transform returns the clean chunk paths in page order, clean chunk k being page k cleaned and raw chunk k still page k |
| Scenarios.CleanParsableRow | src/transform.py:12-21 | a row with a parsable date and amount gets the timestamp and the number; the invoice passes through |
| Scenarios.CleanUnparsableRow | src/transform.py:12-21 | a row with an unparsable date and amount gets the missing marker and 0; the invoice passes through |
| Scenarios.CleanMissingPack | src/transform.py:20-21 | a chunk with only invoice, date and dollar columns fails with a `KeyError` on `pack` |

## Left out

- HTTP, CSV parsing, Parquet reading and writing, `mkdir` and the progress
  `print`s are left out. The endpoint is the `source` table. A Parquet file
  holds a `Table`, and reading it back gives the table that was written.
- The `$where` date filter is not modelled: `source` already holds the rows of
  the requested date range.
- Request timeouts and `raise_for_status` errors are not modelled. The code
  has no retry, back-off or resume either.
- The configuration module is not modelled, apart from the default chunk size
  (`Extract.DEFAULT_CHUNK_ROWS`, 50 000, used by `Extract.DefaultChunkCount`). A negative `CHUNK_ROWS` from the
  environment is not modelled; the chunk size is a natural number.
- The date and number parsers themselves, floating point and pandas dtypes
  are not modelled. Numbers are exact reals and the parsers are parameters.
- Transform.ToDatetime: one parser for the whole run decides each cell on its
  own. Without a `format`, pandas' `to_datetime` (and `read_csv` with
  `parse_dates`) infers one format from the first non-missing value of the
  column, so text in another format becomes missing and a text date's result
  can depend on the chunk it lands in. Pipeline.CleanRowsAppend,
  Pipeline.CleanPagesFlatten, Pipeline.CleanPagesCover and the last part of
  Pipeline.ExtractThenTransform rest on the per-cell reading and need not
  hold across chunk boundaries of the real program.
- Extract.PagesPartition, Extract.PagesAtOffsets, Extract.PagesCount,
  Extract.ExtractionOutcome (its row total), Pipeline.CleanPagesCover and the
  last part of Pipeline.ExtractThenTransform assume that every page request
  reads the same fixed row sequence. `_fetch_page` sends `$limit` and
  `$offset` but no `$order` (src/extract.py:19-24), and each page is a
  separate request, so nothing in the code keeps the endpoint's row order or
  contents from changing between requests. The model has one unchanging
  `source` for the whole run; with a changing source, rows can be repeated or
  skipped across pages and the total need not be the row count.
- Extract.FetchPage, Extract.Pages, Extract.PagesEmpty, Extract.PagesNone,
  Extract.PagingLoop and Extract.ExtractToParquet return a frame for every
  response, but `pd.read_csv(..., parse_dates=["date"])` (src/extract.py:27-31)
  raises on two kinds of response: one with no header row (`EmptyDataError`)
  and one whose header lacks `date` (`ValueError`). The model does not
  distinguish these: a dataset without columns gives no pages and total 0,
  and a dataset without a `date` column is extracted normally, where the
  program stops with an exception.
- The loader, the star-schema derivation, the Airflow DAG's scheduling and
  retries, and the tests are not part of this model. The pipeline lemmas use
  only the DAG's ordering and its two directories.
- Extract.ExtractToParquet: the source function returns only the paths; the
  model also returns the directory afterwards and the printed row total.
- Transform.CleanChunk: pandas assigns each coerced column as a new Series;
  the model rewrites the cells in place in an array of rows. Only the final
  contents are modelled.

Further behaviour of the code that the model states:

- The offset advances by the rows received, not by `page_no * CHUNK_ROWS`.
  `Extract.PagesAtOffsets` proves the two agree, because every page before
  the last is full.
- There is no retry, back-off or resume from a saved offset.
- `pd.to_datetime` gives a `Timestamp`, not a calendar date.
- Eight numeric columns are coerced: `pack`, `bottle_volume_ml`,
  `state_bottle_cost`, `state_bottle_retail`, `sale_bottles`, `sale_dollars`,
  `sale_liters` and `sale_gallons` (`Transform.NUM_COLS`).
- A chunk with only `invoice_line_no`, `date` and `sale_dollars` stops with
  `KeyError('pack')` (`Scenarios.CleanMissingPack`), although each of its rows
  cleans as `Scenarios.CleanParsableRow` and `Scenarios.CleanUnparsableRow`
  state.
- An unparsable date stays missing after cleaning (`Transform.CleanRow`). So
  a clean chunk can still contain missing markers, in `date` and in every
  column the cleaning leaves untouched.
