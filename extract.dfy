/** The paginated extractor: fetch the dataset page by page with `$limit` /
    `$offset`, stop at the first empty page and write every non-empty page as
    one Parquet chunk file named after its page number. */
module Extract {
  import opened Frames
  import opened Naming

  /** `CHUNK_ROWS` when the environment does not set it. */
  const DEFAULT_CHUNK_ROWS: nat := 50000

  /** One page request: at most `limit` rows of `source`, starting at row `offset`.
      `source` stands for the rows the endpoint holds for the requested date range;
      a request past the end returns a frame with the header's columns and no rows. */
  function FetchPage(source: Table, limit: nat, offset: nat): (page: Table)
    ensures page.columns == source.columns
    ensures |page.rows| <= limit
    ensures offset < |source.rows| ==> offset + |page.rows| <= |source.rows|
    ensures offset < |source.rows| ==> page.rows == source.rows[offset..offset + |page.rows|]
    ensures page.rows == [] <==> offset >= |source.rows| || limit == 0
    ensures offset < |source.rows| ==>
              |page.rows| == if offset + limit <= |source.rows| then limit else |source.rows| - offset
  {
    if offset >= |source.rows| then Table(source.columns, [])
    else
      var end := if offset + limit < |source.rows| then offset + limit else |source.rows|;
      Table(source.columns, source.rows[offset..end])
  }

  /** The pages the extraction loop writes, in order, starting at `offset`. */
  function Pages(source: Table, limit: nat, offset: nat): seq<Table>
    decreases |source.rows| - offset
  {
    var page := FetchPage(source, limit, offset);
    if IsEmpty(page) then [] else [page] + Pages(source, limit, offset + |page.rows|)
  }

  /** A non-empty first page is followed by the pages from right after it. */
  lemma PagesCons(source: Table, limit: nat, offset: nat)
    requires !IsEmpty(FetchPage(source, limit, offset))
    ensures Pages(source, limit, offset) ==
            [FetchPage(source, limit, offset)] + Pages(source, limit, offset + |FetchPage(source, limit, offset).rows|)
  {
  }

  /** All rows of a sequence of frames, concatenated in order. */
  function Flatten(chunks: seq<Table>): seq<Row>
  {
    if chunks == [] then [] else Flatten(chunks[..|chunks| - 1]) + chunks[|chunks| - 1].rows
  }

  /** The sum of the row counts of a sequence of frames. */
  function TotalRows(chunks: seq<Table>): nat
  {
    if chunks == [] then 0 else TotalRows(chunks[..|chunks| - 1]) + |chunks[|chunks| - 1].rows|
  }

  /** The path of the k-th chunk in `dir`, for every k below `n`. */
  function ChunkPaths(dir: Path, n: nat): (paths: seq<Path>)
    ensures |paths| == n
    ensures forall k :: 0 <= k < n ==> paths[k] == Join(dir, ChunkName(k))
  {
    seq(n, k requires 0 <= k < n => Join(dir, ChunkName(k)))
  }

  /** The directory after writing `chunks[k]` to `paths[k]`, in order. */
  function WriteChunks(files: Store, paths: seq<Path>, chunks: seq<Table>): Store
    requires |paths| == |chunks|
  {
    if paths == [] then files
    else WriteChunks(files, paths[..|paths| - 1], chunks[..|chunks| - 1])[paths[|paths| - 1] := chunks[|chunks| - 1]]
  }

  // ---------------------------------------------------------------------------
  // Properties of the page sequence

  /** Every page that is written holds at least one and at most `limit` rows,
      under the dataset's own columns. */
  lemma {:induction false} PagesBounded(source: Table, limit: nat, offset: nat)
    ensures forall k :: 0 <= k < |Pages(source, limit, offset)| ==>
              var page := Pages(source, limit, offset)[k];
              1 <= |page.rows| <= limit && page.columns == source.columns && !IsEmpty(page)
    decreases |source.rows| - offset
  {
    var page := FetchPage(source, limit, offset);
    if !IsEmpty(page) {
      PagesBounded(source, limit, offset + |page.rows|);
    }
  }

  /** Page k starts at row `offset + k * limit`: every page before the last is full,
      so advancing by the rows received agrees with advancing by `limit`. */
  lemma {:induction false} PagesAtOffsets(source: Table, limit: nat, offset: nat, k: nat)
    requires k < |Pages(source, limit, offset)|
    ensures offset + k * limit < |source.rows|
    ensures Pages(source, limit, offset)[k] == FetchPage(source, limit, offset + k * limit)
    decreases k
  {
    var page := FetchPage(source, limit, offset);
    assert !IsEmpty(page);
    PagesCons(source, limit, offset);
    if k == 0 {
      assert offset + k * limit == offset;
    } else {
      var next := offset + |page.rows|;
      var rest := Pages(source, limit, next);
      assert Pages(source, limit, offset)[k] == rest[k - 1];
      PagesAtOffsets(source, limit, next, k - 1);
      assert |page.rows| == limit;
      OffsetStep(offset, limit, k);
    }
  }

  /** With a positive page size and at least one column, the pages partition the
      rows from `offset` on: concatenated in order they give each row exactly once. */
  lemma {:induction false} PagesPartition(source: Table, limit: nat, offset: nat)
    requires limit >= 1 && source.columns != {}
    requires offset <= |source.rows|
    ensures Flatten(Pages(source, limit, offset)) == source.rows[offset..]
    decreases |source.rows| - offset
  {
    var page := FetchPage(source, limit, offset);
    if offset < |source.rows| {
      var next := offset + |page.rows|;
      PagesCons(source, limit, offset);
      PagesPartition(source, limit, next);
      FlattenCons(page, Pages(source, limit, next));
      SliceSplit(source.rows, offset, next);
    } else {
      assert source.rows[offset..] == [];
    }
  }

  /** Every page of a well-formed dataset is a well-formed frame. */
  lemma {:induction false} PagesWellFormed(source: Table, limit: nat, offset: nat)
    requires WellFormed(source)
    ensures forall k :: 0 <= k < |Pages(source, limit, offset)| ==> WellFormed(Pages(source, limit, offset)[k])
    decreases |source.rows| - offset
  {
    var page := FetchPage(source, limit, offset);
    if !IsEmpty(page) {
      PagesCons(source, limit, offset);
      PagesWellFormed(source, limit, offset + |page.rows|);
      forall i | 0 <= i < |page.rows|
        ensures page.rows[i].Keys == page.columns
      {
        assert page.rows[i] == source.rows[offset + i];
      }
    }
  }

  /** With the default page size of 50 000 rows, the number of chunks is the
      row count divided by 50 000, rounded up. */
  lemma DefaultChunkCount(source: Table)
    requires source.columns != {}
    ensures |Pages(source, DEFAULT_CHUNK_ROWS, 0)| == (|source.rows| + 49999) / 50000
  {
    PagesCount(source, DEFAULT_CHUNK_ROWS, 0);
  }

  /** There are no pages exactly when the offset is past the end, the page
      size is zero or the frame has no columns. */
  lemma PagesEmpty(source: Table, limit: nat, offset: nat)
    ensures Pages(source, limit, offset) == [] <==> offset >= |source.rows| || limit == 0 || source.columns == {}
  {
  }

  /** With a zero page size or a frame without columns the first page is already
      empty, so nothing is written. */
  lemma PagesNone(source: Table, limit: nat)
    requires limit == 0 || source.columns == {}
    ensures Pages(source, limit, 0) == []
  {
  }

  /** The number of pages is the row count divided by the page size, rounded up. */
  lemma {:induction false} PagesCount(source: Table, limit: nat, offset: nat)
    requires limit >= 1 && source.columns != {}
    requires offset <= |source.rows|
    ensures |Pages(source, limit, offset)| == (|source.rows| - offset + limit - 1) / limit
    decreases |source.rows| - offset
  {
    var left := |source.rows| - offset;
    CeilDivStep(left, limit);
    if left > 0 {
      var page := FetchPage(source, limit, offset);
      PagesCons(source, limit, offset);
      PagesCount(source, limit, offset + |page.rows|);
    }
  }

  /** Rounding up `left / limit`: no pages for no rows, one for up to `limit`
      rows, and one more than for `left - limit` rows otherwise. */
  lemma CeilDivStep(left: nat, limit: nat)
    requires limit >= 1
    ensures left == 0 ==> (left + limit - 1) / limit == 0
    ensures 0 < left <= limit ==> (left + limit - 1) / limit == 1
    ensures left > limit ==> (left + limit - 1) / limit == (left - limit + limit - 1) / limit + 1
  {
    if left == 0 {
      DivUnique(limit - 1, limit, 0, limit - 1);
    } else if left <= limit {
      DivUnique(left + limit - 1, limit, 1, left - 1);
    } else {
      DivStep(left - limit + limit - 1, limit);
    }
  }

  lemma SliceSplit(s: seq<Row>, i: nat, j: nat)
    requires i <= j <= |s|
    ensures s[i..] == s[i..j] + s[j..]
  {
  }

  lemma OffsetStep(offset: nat, d: nat, k: nat)
    requires k >= 1
    ensures (offset + d) + (k - 1) * d == offset + k * d
  {
    MulStep(k, d);
  }

  lemma MulStep(k: nat, d: nat)
    requires k >= 1
    ensures d + (k - 1) * d == k * d
  {
  }

  lemma DivStep(x: nat, d: nat)
    requires d >= 1
    ensures (x + d) / d == x / d + 1
  {
    var q, r := x / d, x % d;
    assert x == q * d + r;
    assert x + d == (q + 1) * d + r;
    DivUnique(x + d, d, q + 1, r);
  }

  lemma DivUnique(a: nat, d: nat, q: nat, r: nat)
    requires d >= 1 && r < d && a == q * d + r
    ensures a / d == q
  {
    var q', r' := a / d, a % d;
    assert a == q' * d + r';
    if q' > q {
      MulGap(q, q', d);
      assert false;
    } else if q' < q {
      MulGap(q', q, d);
      assert false;
    }
  }

  lemma {:induction false} MulGap(x: nat, y: nat, d: nat)
    requires x < y
    ensures x * d + d <= y * d
    decreases y - x
  {
    if y > x + 1 {
      MulGap(x, y - 1, d);
      assert (y - 1) * d + d == y * d;
    } else {
      assert (x + 1) * d == x * d + d;
    }
  }

  lemma {:induction false} FlattenCons(c: Table, cs: seq<Table>)
    ensures Flatten([c] + cs) == c.rows + Flatten(cs)
    decreases |cs|
  {
    if cs != [] {
      var all := [c] + cs;
      assert all[..|all| - 1] == [c] + cs[..|cs| - 1];
      FlattenCons(c, cs[..|cs| - 1]);
    } else {
      assert [c] + cs == [c];
      assert [c][..0] == [];
    }
  }

  /** The running sum of row counts is the length of the concatenated rows. */
  lemma {:induction false} TotalRowsIsLength(chunks: seq<Table>)
    ensures TotalRows(chunks) == |Flatten(chunks)|
    decreases |chunks|
  {
    if chunks != [] {
      TotalRowsIsLength(chunks[..|chunks| - 1]);
    }
  }

  /** Writing to distinct paths leaves each path holding its own chunk and every
      other file as it was. */
  lemma {:induction false} WriteChunksContents(files: Store, paths: seq<Path>, chunks: seq<Table>)
    requires |paths| == |chunks|
    requires forall i, j :: 0 <= i < j < |paths| ==> paths[i] != paths[j]
    ensures forall k :: 0 <= k < |paths| ==>
              paths[k] in WriteChunks(files, paths, chunks) && WriteChunks(files, paths, chunks)[paths[k]] == chunks[k]
    ensures forall q :: q !in paths ==>
              (q in WriteChunks(files, paths, chunks) <==> q in files) &&
              (q in files ==> WriteChunks(files, paths, chunks)[q] == files[q])
    decreases |paths|
  {
    if paths != [] {
      var n := |paths| - 1;
      var before := WriteChunks(files, paths[..n], chunks[..n]);
      WriteChunksContents(files, paths[..n], chunks[..n]);
      assert WriteChunks(files, paths, chunks) == before[paths[n] := chunks[n]];
      forall k | 0 <= k < n
        ensures paths[k] != paths[n] && paths[..n][k] == paths[k] && chunks[..n][k] == chunks[k]
      {
      }
      forall q | q !in paths
        ensures q !in paths[..n] && q != paths[n]
      {
        assert forall k :: 0 <= k < n ==> paths[..n][k] == paths[k];
      }
    }
  }

  /** Chunk paths in one directory are pairwise distinct. */
  lemma ChunkPathsDistinct(dir: Path, n: nat)
    ensures forall i, j :: 0 <= i < j < n ==> ChunkPaths(dir, n)[i] != ChunkPaths(dir, n)[j]
  {
    forall i, j | 0 <= i < j < n
      ensures ChunkPaths(dir, n)[i] != ChunkPaths(dir, n)[j]
    {
      ChunkNameInjective(i, j);
      JoinInjective(dir, ChunkName(i), dir, ChunkName(j));
    }
  }

  /** What the extraction leaves behind, stated over the page sequence: each chunk
      path holds its page, other files are untouched, and with a positive page size
      and at least one column the reported total is the dataset's row count. */
  lemma ExtractionOutcome(source: Table, chunkRows: nat, destDir: Path, files: Store)
    ensures var pages := Pages(source, chunkRows, 0);
            var paths := ChunkPaths(destDir, |pages|);
            var written := WriteChunks(files, paths, pages);
            && (forall k :: 0 <= k < |paths| ==> paths[k] in written && written[paths[k]] == pages[k])
            && (forall q :: q !in paths ==> (q in written <==> q in files) && (q in files ==> written[q] == files[q]))
            && (chunkRows >= 1 && source.columns != {} ==> TotalRows(pages) == |source.rows|)
  {
    var pages := Pages(source, chunkRows, 0);
    ChunkPathsDistinct(destDir, |pages|);
    WriteChunksContents(files, ChunkPaths(destDir, |pages|), pages);
    if chunkRows >= 1 && source.columns != {} {
      PagesPartition(source, chunkRows, 0);
      TotalRowsIsLength(pages);
    }
  }

  /** Writing the pages of a well-formed dataset into a directory of
      well-formed frames leaves every file well formed. */
  lemma ExtractionValid(source: Table, chunkRows: nat, destDir: Path, files: Store)
    requires WellFormed(source) && ValidStore(files)
    ensures var pages := Pages(source, chunkRows, 0);
            ValidStore(WriteChunks(files, ChunkPaths(destDir, |pages|), pages))
  {
    var pages := Pages(source, chunkRows, 0);
    var paths := ChunkPaths(destDir, |pages|);
    var written := WriteChunks(files, paths, pages);
    ExtractionOutcome(source, chunkRows, destDir, files);
    PagesWellFormed(source, chunkRows, 0);
    forall q | q in written
      ensures WellFormed(written[q])
    {
      if q in paths {
        var k :| 0 <= k < |paths| && paths[k] == q;
      }
    }
  }

  // ---------------------------------------------------------------------------
  // The extraction loop

  /** The loop's bookkeeping after `|done|` pages: `offset` is the sum of their row
      counts, `page_no` is their number, the k-th path is chunk k in `destDir`, the
      directory holds exactly those writes, and the pages still to come are the
      ones the endpoint returns from `offset` on. */
  ghost predicate LoopInvariant(source: Table, chunkRows: nat, destDir: Path, files: Store,
                                offset: nat, pageNo: nat, paths: seq<Path>, written: Store, done: seq<Table>)
  {
    && offset <= |source.rows|
    && pageNo == |paths| == |done|
    && done + Pages(source, chunkRows, offset) == Pages(source, chunkRows, 0)
    && offset == TotalRows(done)
    && paths == ChunkPaths(destDir, pageNo)
    && written == WriteChunks(files, paths, done)
  }

  lemma LoopStart(source: Table, chunkRows: nat, destDir: Path, files: Store)
    ensures LoopInvariant(source, chunkRows, destDir, files, 0, 0, [], files, [])
  {
    assert [] + Pages(source, chunkRows, 0) == Pages(source, chunkRows, 0);
  }

  /** Writing one non-empty page and advancing by the rows received keeps the bookkeeping. */
  lemma LoopStep(source: Table, chunkRows: nat, destDir: Path, files: Store,
                 offset: nat, pageNo: nat, paths: seq<Path>, written: Store, done: seq<Table>)
    requires LoopInvariant(source, chunkRows, destDir, files, offset, pageNo, paths, written, done)
    requires !IsEmpty(FetchPage(source, chunkRows, offset))
    ensures var df := FetchPage(source, chunkRows, offset);
            var path := Join(destDir, ChunkName(pageNo));
            && offset < offset + |df.rows| <= |source.rows|
            && LoopInvariant(source, chunkRows, destDir, files, offset + |df.rows|, pageNo + 1,
                             paths + [path], written[path := df], done + [df])
  {
    var df := FetchPage(source, chunkRows, offset);
    var path := Join(destDir, ChunkName(pageNo));
    PagesStep(source, chunkRows, offset, done);
    AppendPage(files, paths, done, path, df);
    ChunkPathsSnoc(destDir, pageNo);
  }

  /** At the first empty page the bookkeeping describes the whole run. */
  lemma LoopExit(source: Table, chunkRows: nat, destDir: Path, files: Store,
                 offset: nat, pageNo: nat, paths: seq<Path>, written: Store, done: seq<Table>)
    requires LoopInvariant(source, chunkRows, destDir, files, offset, pageNo, paths, written, done)
    requires IsEmpty(FetchPage(source, chunkRows, offset))
    ensures done == Pages(source, chunkRows, 0)
    ensures paths == ChunkPaths(destDir, |Pages(source, chunkRows, 0)|)
    ensures written == WriteChunks(files, paths, Pages(source, chunkRows, 0))
    ensures offset == TotalRows(Pages(source, chunkRows, 0))
  {
    assert Pages(source, chunkRows, offset) == [];
    assert done + [] == done;
  }

  /** The paging loop of `extract_to_parquet`: fetch page after page, write each
      non-empty one as the next chunk, and stop at the first empty page. */
  method PagingLoop(source: Table, chunkRows: nat, destDir: Path, files: Store)
    returns (paths: seq<Path>, written: Store, total: nat)
    ensures paths == ChunkPaths(destDir, |Pages(source, chunkRows, 0)|)
    ensures written == WriteChunks(files, paths, Pages(source, chunkRows, 0))
    ensures total == TotalRows(Pages(source, chunkRows, 0))
  {
    ghost var done: seq<Table> := [];
    var offset: nat := 0;
    var pageNo: nat := 0;
    paths := [];
    written := files;
    LoopStart(source, chunkRows, destDir, files);
    while true
      invariant offset <= |source.rows|
      invariant LoopInvariant(source, chunkRows, destDir, files, offset, pageNo, paths, written, done)
      decreases |source.rows| - offset
    {
      var df := FetchPage(source, chunkRows, offset);
      if IsEmpty(df) {
        LoopExit(source, chunkRows, destDir, files, offset, pageNo, paths, written, done);
        break;
      }
      var path := Join(destDir, ChunkName(pageNo));
      LoopStep(source, chunkRows, destDir, files, offset, pageNo, paths, written, done);
      written := written[path := df];
      paths := paths + [path];
      done := done + [df];
      offset := offset + |df.rows|;
      pageNo := pageNo + 1;
    }
    total := offset;
  }

  /** `extract_to_parquet`: returns the chunk paths in page order, the directory
      after the writes, and the reported row total. */
  method ExtractToParquet(source: Table, chunkRows: nat, destDir: Path, files: Store)
    returns (paths: seq<Path>, written: Store, total: nat)
    ensures paths == ChunkPaths(destDir, |Pages(source, chunkRows, 0)|)
    ensures written == WriteChunks(files, paths, Pages(source, chunkRows, 0))
    ensures total == TotalRows(Pages(source, chunkRows, 0))
    ensures forall k :: 0 <= k < |paths| ==> paths[k] in written && written[paths[k]] == Pages(source, chunkRows, 0)[k]
    ensures forall q :: q !in paths ==> (q in written <==> q in files) && (q in files ==> written[q] == files[q])
    ensures chunkRows >= 1 && source.columns != {} ==> total == |source.rows|
    ensures chunkRows == 0 || source.columns == {} ==> paths == [] && written == files && total == 0
    ensures WellFormed(source) && ValidStore(files) ==> ValidStore(written)
  {
    paths, written, total := PagingLoop(source, chunkRows, destDir, files);
    ExtractionOutcome(source, chunkRows, destDir, files);
    if WellFormed(source) && ValidStore(files) {
      ExtractionValid(source, chunkRows, destDir, files);
    }
    if chunkRows == 0 || source.columns == {} {
      PagesNone(source, chunkRows);
    }
  }

  lemma AppendPage(files: Store, paths: seq<Path>, chunks: seq<Table>, p: Path, c: Table)
    requires |paths| == |chunks|
    ensures TotalRows(chunks + [c]) == TotalRows(chunks) + |c.rows|
    ensures WriteChunks(files, paths + [p], chunks + [c]) == WriteChunks(files, paths, chunks)[p := c]
  {
    assert (chunks + [c])[..|chunks|] == chunks;
    assert (paths + [p])[..|paths|] == paths;
  }

  lemma ChunkPathsSnoc(dir: Path, n: nat)
    ensures ChunkPaths(dir, n + 1) == ChunkPaths(dir, n) + [Join(dir, ChunkName(n))]
  {
  }

  /** One turn of the loop keeps `done + Pages(offset)` equal to the whole page sequence. */
  lemma PagesStep(source: Table, limit: nat, offset: nat, done: seq<Table>)
    requires done + Pages(source, limit, offset) == Pages(source, limit, 0)
    requires !IsEmpty(FetchPage(source, limit, offset))
    ensures (done + [FetchPage(source, limit, offset)]) + Pages(source, limit, offset + |FetchPage(source, limit, offset).rows|)
            == Pages(source, limit, 0)
  {
    var page := FetchPage(source, limit, offset);
    var rest := Pages(source, limit, offset + |page.rows|);
    assert Pages(source, limit, offset) == [page] + rest;
    assert (done + [page]) + rest == done + ([page] + rest);
  }
}
