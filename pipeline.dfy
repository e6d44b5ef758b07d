/** The two stages one after the other: extract the dataset into chunk files
    in a raw directory, then transform those chunks into a separate clean
    directory. */
module Pipeline {
  import opened Frames
  import opened Naming
  import opened Extract
  import opened Transform

  /** Each frame with its rows cleaned and its columns kept. */
  function CleanPages(p: Parsers, chunks: seq<Table>): (r: seq<Table>)
    ensures |r| == |chunks|
    ensures forall k :: 0 <= k < |chunks| ==> r[k] == Table(chunks[k].columns, CleanRows(p, chunks[k].rows))
  {
    seq(|chunks|, k requires 0 <= k < |chunks| => Table(chunks[k].columns, CleanRows(p, chunks[k].rows)))
  }

  /** Cleaning works row by row, so it distributes over concatenation. */
  lemma CleanRowsAppend(p: Parsers, a: seq<Row>, b: seq<Row>)
    ensures CleanRows(p, a + b) == CleanRows(p, a) + CleanRows(p, b)
  {
    var l, r := CleanRows(p, a + b), CleanRows(p, a) + CleanRows(p, b);
    forall i | 0 <= i < |l|
      ensures l[i] == r[i]
    {
      if i < |a| {
        assert (a + b)[i] == a[i];
      } else {
        assert (a + b)[i] == b[i - |a|];
      }
    }
  }

  /** The clean chunks, concatenated, are the concatenated chunks cleaned. */
  lemma {:induction false} CleanPagesFlatten(p: Parsers, chunks: seq<Table>)
    ensures Flatten(CleanPages(p, chunks)) == CleanRows(p, Flatten(chunks))
    decreases |chunks|
  {
    if chunks != [] {
      var n := |chunks| - 1;
      assert CleanPages(p, chunks)[..n] == CleanPages(p, chunks[..n]);
      CleanPagesFlatten(p, chunks[..n]);
      CleanRowsAppend(p, Flatten(chunks[..n]), chunks[n].rows);
    } else {
      assert CleanRows(p, []) == [];
    }
  }

  /** The chunk files of two different directories never collide, and their
      names are pairwise distinct. */
  lemma ChunkPathsSeparate(rawDir: Path, cleanDir: Path, n: nat)
    requires rawDir != cleanDir
    ensures OutputPaths(ChunkPaths(rawDir, n), cleanDir) == ChunkPaths(cleanDir, n)
    ensures SeparateOutputs(ChunkPaths(rawDir, n), cleanDir)
  {
    var raw := ChunkPaths(rawDir, n);
    var outs := OutputPaths(raw, cleanDir);
    forall j, k | 0 <= j < k < n
      ensures Name(raw[j]) != Name(raw[k])
    {
      ChunkNameInjective(j, k);
    }
    forall j, k | 0 <= j < n && 0 <= k < n
      ensures outs[j] != raw[k]
    {
      JoinInjective(cleanDir, ChunkName(j), rawDir, ChunkName(k));
    }
  }

  /** Every page carries the dataset's columns. */
  lemma PagesColumns(source: Table, limit: nat)
    ensures forall k :: 0 <= k < |Pages(source, limit, 0)| ==> Pages(source, limit, 0)[k].columns == source.columns
  {
    PagesBounded(source, limit, 0);
  }

  /** The raw chunks of an extraction hold the pages, under the dataset's
      columns, so with every coerced column in the dataset they are readable. */
  lemma ExtractedChunks(source: Table, chunkRows: nat, rawDir: Path, files: Store)
    ensures var pages := Pages(source, chunkRows, 0);
            var raw := ChunkPaths(rawDir, |pages|);
            var store := WriteChunks(files, raw, pages);
            && (forall k :: 0 <= k < |pages| ==> raw[k] in store && store[raw[k]] == pages[k])
            && ((forall c :: c in COERCED ==> c in source.columns) ==> Readable(store, raw))
  {
    ExtractionOutcome(source, chunkRows, rawDir, files);
    PagesColumns(source, chunkRows);
  }

  /** After a successful run with separate outputs, the k-th output holds the
      k-th input cleaned and the k-th input is untouched. */
  lemma TransformedAt(p: Parsers, store: Store, src: seq<Path>, destDir: Path, k: nat)
    requires SeparateOutputs(src, destDir)
    requires RunTransform(p, store, src, destDir).result.Ok?
    requires k < |src|
    ensures var after := RunTransform(p, store, src, destDir).files;
            var out := OutputPaths(src, destDir)[k];
            && src[k] in store
            && out in after && after[out] == Table(store[src[k]].columns, CleanRows(p, store[src[k]].rows))
            && src[k] in after && after[src[k]] == store[src[k]]
  {
    TransformContentAt(p, store, src, destDir, k);
    TransformFrame(p, store, src, destDir, src[k]);
  }

  /** Transforming the chunks of an extraction into another directory: the
      run succeeds, each clean chunk holds its page cleaned, and the raw
      chunks stay in place. */
  lemma TransformExtracted(p: Parsers, source: Table, chunkRows: nat,
                           rawDir: Path, cleanDir: Path, files: Store)
    requires forall c :: c in COERCED ==> c in source.columns
    requires rawDir != cleanDir
    ensures var pages := Pages(source, chunkRows, 0);
            var raw := ChunkPaths(rawDir, |pages|);
            var clean := ChunkPaths(cleanDir, |pages|);
            var run := RunTransform(p, WriteChunks(files, raw, pages), raw, cleanDir);
            && run.result == Ok(clean)
            && (forall k :: 0 <= k < |pages| ==>
                  clean[k] in run.files && run.files[clean[k]] == CleanPages(p, pages)[k] &&
                  raw[k] in run.files && run.files[raw[k]] == pages[k])
  {
    var pages := Pages(source, chunkRows, 0);
    var n := |pages|;
    var raw := ChunkPaths(rawDir, n);
    var clean := ChunkPaths(cleanDir, n);
    var store := WriteChunks(files, raw, pages);
    ExtractedChunks(source, chunkRows, rawDir, files);
    TransformSucceeds(p, store, raw, cleanDir);
    TransformOutputs(p, store, raw, cleanDir);
    ChunkPathsSeparate(rawDir, cleanDir, n);
    var after := RunTransform(p, store, raw, cleanDir).files;
    forall k | 0 <= k < n
      ensures clean[k] in after && after[clean[k]] == CleanPages(p, pages)[k]
      ensures raw[k] in after && after[raw[k]] == pages[k]
    {
      TransformedAt(p, store, raw, cleanDir, k);
    }
  }

  /** With a positive page size and at least one column, the clean pages
      concatenated are the dataset's rows cleaned. */
  lemma CleanPagesCover(p: Parsers, source: Table, chunkRows: nat)
    requires chunkRows >= 1 && source.columns != {}
    ensures Flatten(CleanPages(p, Pages(source, chunkRows, 0))) == CleanRows(p, source.rows)
  {
    PagesPartition(source, chunkRows, 0);
    assert source.rows[0..] == source.rows;
    CleanPagesFlatten(p, Pages(source, chunkRows, 0));
  }

  /** Extracting with a positive page size into `rawDir` and then transforming
      the chunks into a different `cleanDir` succeeds when the dataset has
      every coerced column. The run returns the clean chunk paths in page
      order; the k-th clean chunk is the k-th page with its rows cleaned; the
      raw chunks are left in place; and the clean chunks, concatenated, hold
      every row of the dataset cleaned, each exactly once and in order. */
  lemma ExtractThenTransform(p: Parsers, source: Table, chunkRows: nat,
                             rawDir: Path, cleanDir: Path, files: Store)
    requires chunkRows >= 1
    requires forall c :: c in COERCED ==> c in source.columns
    requires rawDir != cleanDir
    ensures var pages := Pages(source, chunkRows, 0);
            var raw := ChunkPaths(rawDir, |pages|);
            var clean := ChunkPaths(cleanDir, |pages|);
            var run := RunTransform(p, WriteChunks(files, raw, pages), raw, cleanDir);
            && run.result == Ok(clean)
            && (forall k :: 0 <= k < |pages| ==>
                  clean[k] in run.files && run.files[clean[k]] == CleanPages(p, pages)[k] &&
                  raw[k] in run.files && run.files[raw[k]] == pages[k])
            && Flatten(CleanPages(p, pages)) == CleanRows(p, source.rows)
  {
    TransformExtracted(p, source, chunkRows, rawDir, cleanDir, files);
    assert DATE_COLUMN in COERCED;
    CleanPagesCover(p, source, chunkRows);
  }

  /** The DAG's extract task followed by its transform task: the extractor
      writes the raw chunks into `rawDir`, and the transformer receives the
      returned paths and writes the clean chunks into `cleanDir`. */
  method ExtractAndTransform(p: Parsers, source: Table, chunkRows: nat,
                             rawDir: Path, cleanDir: Path, files: Store)
    returns (rawPaths: seq<Path>, cleanResult: Result<seq<Path>, Error>, written: Store)
    requires WellFormed(source) && ValidStore(files)
    ensures rawPaths == ChunkPaths(rawDir, |Pages(source, chunkRows, 0)|)
    ensures ValidStore(written)
    ensures (forall c :: c in COERCED ==> c in source.columns) && rawDir != cleanDir ==>
              var pages := Pages(source, chunkRows, 0);
              var clean := ChunkPaths(cleanDir, |pages|);
              && cleanResult == Ok(clean)
              && (forall k :: 0 <= k < |pages| ==>
                    clean[k] in written && written[clean[k]] == CleanPages(p, pages)[k] &&
                    rawPaths[k] in written && written[rawPaths[k]] == pages[k])
  {
    var raw, total;
    rawPaths, raw, total := ExtractToParquet(source, chunkRows, rawDir, files);
    cleanResult, written := TransformParquetChunks(p, raw, rawPaths, cleanDir);
    if (forall c :: c in COERCED ==> c in source.columns) && rawDir != cleanDir {
      TransformExtracted(p, source, chunkRows, rawDir, cleanDir, files);
    }
  }
}
