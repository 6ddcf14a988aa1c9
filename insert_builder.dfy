/**
 * The batching loop shared by both insert generators: for each row it opens
 * a tuple, appends one placeholder per column (resolving the cell's value
 * first), trims the trailing comma, and closes the batch at the batch size
 * or at the last row, emitting the builder's text and the parameter set and
 * then starting both afresh.
 */
module InsertBuilder {
  import opened Common
  import opened Text
  import opened Resolution
  import opened Batching
  import opened InsertSpec
  import opened InsertLoop

  /**
   * The column loop for row i: opens a tuple, appends each column's
   * placeholder and binds its value, then trims the trailing comma and closes
   * the tuple. Fails with the first column that has no value.
   */
  method AppendRow(prefix: string, srcs: seq<Source>, row: Row, i: nat, sb: string, parameters: seq<Param>)
    returns (rowVals: Result<seq<Value>>, sb': string, parameters': seq<Param>)
    ensures rowVals == ResolveRow(srcs, row)
    ensures rowVals.Ok? ==> sb' == sb + RowTuple(prefix, SourceNames(srcs), i) + ","
    ensures rowVals.Ok? ==> parameters' == parameters + RowParams(prefix, SourceNames(srcs), rowVals.value, i)
  {
    var names := SourceNames(srcs);
    sb' := sb + "(";
    parameters' := parameters;
    var vs: seq<Value> := [];
    var j := 0;
    while j < |srcs|
      invariant 0 <= j <= |srcs|
      invariant ResolveRow(srcs[..j], row) == Ok(vs)
      invariant sb' == sb + "(" + OpenTupleText(prefix, names, i, j)
      invariant parameters' == parameters + RowParams(prefix, names[..j], vs, i)
    {
      var cell := CellValue(srcs[j], row);
      if cell.Err? {
        ResolveRowStep(srcs, j, row);
        ResolveRowErrPrefix(srcs, j + 1, row);
        return Err(cell.error), sb', parameters';
      }
      var name := ParamName(prefix, srcs[j].name, i);
      parameters' := parameters' + [(name, cell.value)];
      OpenTupleStep(prefix, names, i, j);
      ghost var open := OpenTupleText(prefix, names, i, j);
      TupleTextAssoc(sb, open, name);
      sb' := sb' + name + ",";
      RowParamsSnoc(prefix, names, vs, i, j, cell.value);
      AppendAssoc(parameters, RowParams(prefix, names[..j], vs, i), [(name, cell.value)]);
      ResolveRowStep(srcs, j, row);
      vs := vs + [cell.value];
      j := j + 1;
    }
    CloseTuple(sb, prefix, names, i);
    sb' := sb'[..|sb'| - 1];
    sb' := sb' + "),";
    assert names[..|srcs|] == names && srcs[..|srcs|] == srcs;
    rowVals := Ok(vs);
  }

  /** The row loop of both insert generators. */
  method BuildInsertBatches(header: string, tail: string, prefix: string, srcs: seq<Source>, rows: seq<Row>, batchSize: nat)
    returns (r: Result<seq<Batch>>)
    ensures r == InsertBatches(header, tail, prefix, srcs, rows, batchSize)
  {
    ghost var names := SourceNames(srcs);
    var result: seq<Batch> := [];
    var sb := header;
    var parameters: seq<Param> := [];
    var batchCount: nat := 0;
    ghost var done: seq<seq<Value>> := [];
    ghost var open: seq<seq<Value>> := [];
    RowLoopStart(header, tail, prefix, srcs, rows, batchSize);
    var i := 0;
    while i < |rows|
      invariant RowLoopRows(srcs, rows, batchSize, i, done, open, batchCount, |result|)
      invariant RowLoopOutput(header, tail, prefix, names, batchSize, done, open, result, sb, parameters)
      decreases |rows| - i
    {
      ghost var done0, open0, batchCount0, result0, sb0, parameters0 := done, open, batchCount, result, sb, parameters;
      var rowVals;
      rowVals, sb, parameters := AppendRow(prefix, srcs, rows[i], i, sb, parameters);
      if rowVals.Err? {
        RowLoopFail(srcs, rows, batchSize, i, done, open, batchCount, |result|, header, tail, prefix);
        return Err(rowVals.error);
      }
      ghost var rowText, rowParams := sb, parameters;
      ghost var close := i == |rows| - 1 || batchCount + 1 >= batchSize;
      batchCount := batchCount + 1;
      if i == |rows| - 1 || batchCount >= batchSize {
        // Trim the trailing comma, finish the statement and emit the batch, then start afresh.
        sb := sb[..|sb| - 1];
        sb := sb + tail;
        result := result + [Batch(sb, parameters)];
        batchCount := 0;
        sb := header;
        parameters := [];
        done, open := done + (open + [rowVals.value]), [];
      } else {
        open := open + [rowVals.value];
      }
      RowLoopStep(header, tail, prefix, srcs, rows, batchSize, i, done0, open0, batchCount0, result0, sb0, parameters0,
        rowVals.value, close, done, open, batchCount, result, sb, parameters, rowText, rowParams);
      i := i + 1;
    }
    RowLoopEnd(header, tail, prefix, srcs, rows, batchSize, done, open, batchCount, result, sb, parameters);
    r := Ok(result);
  }
}
