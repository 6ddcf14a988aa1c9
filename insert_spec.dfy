/**
 * What a multi-row insert produces, as a function of its rows: the batches
 * of the resolved value rows, or the error of the first cell that has no
 * value; and what that means for batch count, row order, placement of each
 * cell and uniqueness of parameter names.
 */
module InsertSpec {
  import opened Common
  import opened Text
  import opened Resolution
  import opened Batching

  /**
   * What a multi-row insert produces: the error of the first cell (in
   * row-major order) without a value, or the batches of the resolved rows.
   */
  function InsertBatches(header: string, tail: string, prefix: string, srcs: seq<Source>, rows: seq<Row>, batchSize: nat)
    : (r: Result<seq<Batch>>)
    ensures r.Ok? <==> ResolveRows(rows, srcs).Ok?
    ensures r.Err? ==> r.error == ResolveRows(rows, srcs).error
  {
    match ResolveRows(rows, srcs)
    case Err(e) => Err(e)
    case Ok(vals) => Ok(Batches(header, tail, prefix, SourceNames(srcs), vals, batchSize))
  }

  /** A multi-row insert over no rows produces no statement at all. */
  lemma InsertNoRows(header: string, tail: string, prefix: string, srcs: seq<Source>, batchSize: nat)
    ensures InsertBatches(header, tail, prefix, srcs, [], batchSize) == Ok([])
  {
    var none: seq<seq<Value>> := [];
    assert BatchCount(|none|, EffectiveBatchSize(batchSize)) == 0;
  }

  /** An insert succeeds exactly when every cell has a value. */
  lemma InsertSucceedsIffAllCellsResolve(header: string, tail: string, prefix: string, srcs: seq<Source>, rows: seq<Row>, batchSize: nat)
    ensures InsertBatches(header, tail, prefix, srcs, rows, batchSize).Ok? <==> AllCellsResolve(srcs, rows)
  {
    ResolveRowsIffAllCells(rows, srcs);
  }

  /** A failed insert reports the first cell, in row-major order, that has no value. */
  lemma InsertFailsAtFirstMissingCell(header: string, tail: string, prefix: string, srcs: seq<Source>, rows: seq<Row>, batchSize: nat)
    requires InsertBatches(header, tail, prefix, srcs, rows, batchSize).Err?
    ensures exists i, j :: FirstMissingCell(srcs, rows, i, j, InsertBatches(header, tail, prefix, srcs, rows, batchSize).error)
  {
    ResolveRowsFirstMissingCell(rows, srcs);
  }

  /** Batch k of an insert, as the header, the tuples of rows [lo, hi) and the tail, with those rows' parameters. */
  ghost predicate BatchHoldsRows(bs: seq<Batch>, k: nat, header: string, tail: string, prefix: string, names: seq<string>,
                                 vals: seq<seq<Value>>, lo: nat, hi: nat)
  {
    && k < |bs| && lo < hi <= |vals| && Rectangular(vals[lo..hi], |names|)
    && bs[k] == MakeBatch(header, tail, prefix, names, vals[lo..hi], lo)
  }

  /**
   * Batch k of an insert holds rows [k * e, k * e + e), e being the effective
   * batch size, or the rows from k * e on when it is the last batch.
   */
  lemma InsertBatchAt(header: string, tail: string, prefix: string, srcs: seq<Source>, rows: seq<Row>, batchSize: nat, k: nat)
    requires InsertBatches(header, tail, prefix, srcs, rows, batchSize).Ok?
    requires k < |InsertBatches(header, tail, prefix, srcs, rows, batchSize).value|
    ensures var e := EffectiveBatchSize(batchSize);
      var bs := InsertBatches(header, tail, prefix, srcs, rows, batchSize).value;
      BatchHoldsRows(bs, k, header, tail, prefix, SourceNames(srcs), ResolveRows(rows, srcs).value,
                     k * e, if k + 1 < |bs| then k * e + e else |rows|)
  {
    var vals := ResolveRows(rows, srcs).value;
    assert InsertBatches(header, tail, prefix, srcs, rows, batchSize).value
        == Batches(header, tail, prefix, SourceNames(srcs), vals, batchSize);
    BatchesHoldRows(header, tail, prefix, SourceNames(srcs), vals, batchSize, k);
  }

  /** Batch k of the split holds rows [k * e, k * e + e), or the rows from k * e on when it is the last batch. */
  lemma BatchesHoldRows(header: string, tail: string, prefix: string, names: seq<string>, vals: seq<seq<Value>>,
                        batchSize: nat, k: nat)
    requires Rectangular(vals, |names|)
    requires k < |Batches(header, tail, prefix, names, vals, batchSize)|
    ensures var e := EffectiveBatchSize(batchSize);
      var bs := Batches(header, tail, prefix, names, vals, batchSize);
      BatchHoldsRows(bs, k, header, tail, prefix, names, vals, k * e, if k + 1 < |bs| then k * e + e else |vals|)
  {
    var bs := Batches(header, tail, prefix, names, vals, batchSize);
    var e := EffectiveBatchSize(batchSize);
    var hi := if k + 1 < |bs| then k * e + e else |vals|;
    BatchBounds(k, |vals|, e);
    BatchStartIsProduct(k, e);
    assert BatchEnd(k, |vals|, e) == hi;
    var chunk := BatchRows(vals, k, e);
    assert bs[k] == MakeBatch(header, tail, prefix, names, chunk, BatchStart(k, e));
  }

  /** An insert over n rows yields ceil(n / e) batches, e being the effective batch size; every batch but the last is full. */
  lemma InsertBatchCount(header: string, tail: string, prefix: string, srcs: seq<Source>, rows: seq<Row>, batchSize: nat)
    requires InsertBatches(header, tail, prefix, srcs, rows, batchSize).Ok?
    ensures var e := EffectiveBatchSize(batchSize);
      |InsertBatches(header, tail, prefix, srcs, rows, batchSize).value| == (|rows| + e - 1) / e
  {
    BatchCountIsCeiling(|rows|, EffectiveBatchSize(batchSize));
  }

  /** Rows keep their input order: all batches' parameters, batch after batch, are all rows' parameters, row after row. */
  lemma InsertKeepsRowOrder(header: string, tail: string, prefix: string, srcs: seq<Source>, rows: seq<Row>, batchSize: nat)
    requires InsertBatches(header, tail, prefix, srcs, rows, batchSize).Ok?
    ensures BatchesParams(InsertBatches(header, tail, prefix, srcs, rows, batchSize).value)
         == RowsParams(prefix, SourceNames(srcs), ResolveRows(rows, srcs).value, 0)
  {
    BatchesCoverRowsInOrder(header, tail, prefix, SourceNames(srcs), ResolveRows(rows, srcs).value, batchSize);
  }

  /** Parameter p of batch k, if there is one. */
  function ParamAt(bs: seq<Batch>, k: int, p: int): Option<Param>
  {
    if 0 <= k < |bs| && 0 <= p < |bs[k].parameters| then Some(bs[k].parameters[p]) else None
  }

  /**
   * The value of cell (i, j) is bound in batch i / e, as parameter
   * (i % e) * width + j, under the name built from column j and the global
   * row index i.
   */
  lemma InsertCellParameter(header: string, tail: string, prefix: string, srcs: seq<Source>, rows: seq<Row>, batchSize: nat,
                            i: nat, j: nat)
    requires InsertBatches(header, tail, prefix, srcs, rows, batchSize).Ok?
    requires i < |rows| && j < |srcs|
    ensures CellValue(srcs[j], rows[i]).Ok?
    ensures ParamAt(InsertBatches(header, tail, prefix, srcs, rows, batchSize).value,
                    i / EffectiveBatchSize(batchSize), (i % EffectiveBatchSize(batchSize)) * |srcs| + j)
         == Some((ParamName(prefix, srcs[j].name, i), CellValue(srcs[j], rows[i]).value))
  {
    InsertBatchesValue(header, tail, prefix, srcs, rows, batchSize);
    var k, p := BatchesCellParameter(header, tail, prefix, SourceNames(srcs), ResolveRows(rows, srcs).value, batchSize, i, j);
    ResolvedCell(rows, srcs, i, j);
  }

  /** A successful insert is the batch split of the resolved values. */
  lemma InsertBatchesValue(header: string, tail: string, prefix: string, srcs: seq<Source>, rows: seq<Row>, batchSize: nat)
    requires InsertBatches(header, tail, prefix, srcs, rows, batchSize).Ok?
    ensures InsertBatches(header, tail, prefix, srcs, rows, batchSize).value
         == Batches(header, tail, prefix, SourceNames(srcs), ResolveRows(rows, srcs).value, batchSize)
  {
  }

  /**
   * With distinct columns, parameter names never repeat within a batch;
   * across the batches of one call they never repeat for any columns
   * (`InsertBatchesShareNoNames`).
   */
  lemma InsertParamNamesUnique(header: string, tail: string, prefix: string, srcs: seq<Source>, rows: seq<Row>, batchSize: nat)
    requires InsertBatches(header, tail, prefix, srcs, rows, batchSize).Ok?
    requires DistinctColumns(SourceNames(srcs))
    ensures var bs := InsertBatches(header, tail, prefix, srcs, rows, batchSize).value;
      && (forall k :: 0 <= k < |bs| ==> DistinctNames(bs[k].parameters))
      && (forall k1, k2 :: 0 <= k1 < k2 < |bs| ==> DisjointNames(bs[k1].parameters, bs[k2].parameters))
  {
    BatchParamNamesUnique(header, tail, prefix, SourceNames(srcs), ResolveRows(rows, srcs).value, batchSize);
  }

  /**
   * Whatever the columns, no parameter name is shared by two batches of one
   * call, because the index in every name is the global row index.
   */
  lemma InsertBatchesShareNoNames(header: string, tail: string, prefix: string, srcs: seq<Source>, rows: seq<Row>, batchSize: nat)
    requires InsertBatches(header, tail, prefix, srcs, rows, batchSize).Ok?
    ensures var bs := InsertBatches(header, tail, prefix, srcs, rows, batchSize).value;
      forall k1, k2 :: 0 <= k1 < k2 < |bs| ==> DisjointNames(bs[k1].parameters, bs[k2].parameters)
  {
    InsertBatchesValue(header, tail, prefix, srcs, rows, batchSize);
    BatchesShareNoNames(header, tail, prefix, SourceNames(srcs), ResolveRows(rows, srcs).value, batchSize);
  }
}
