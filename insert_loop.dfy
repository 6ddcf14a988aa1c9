/**
 * The state of the insert builder's loops: the text of an open tuple and of
 * an open batch, and the invariants of the row loop, with the lemmas that
 * carry them from one row to the next.
 */
module InsertLoop {
  import opened Common
  import opened Text
  import opened Resolution
  import opened Batching
  import opened InsertSpec

  /** The builder's text while a batch is open: the header, then each tuple so far followed by a comma. */
  function OpenBatchText(header: string, prefix: string, names: seq<string>, count: nat, lo: nat): string
  {
    if count == 0 then header else header + Join(",", RowsTuples(prefix, names, count, lo)) + ","
  }

  /** The builder's text inside a tuple after j columns: each placeholder followed by a comma. */
  function OpenTupleText(prefix: string, names: seq<string>, i: nat, j: nat): string
    requires j <= |names|
  {
    if j == 0 then "" else Join(",", Placeholders(prefix, names, i)[..j]) + ","
  }

  lemma OpenTupleStep(prefix: string, names: seq<string>, i: nat, j: nat)
    requires j < |names|
    ensures OpenTupleText(prefix, names, i, j) + ParamName(prefix, names[j], i) + "," == OpenTupleText(prefix, names, i, j + 1)
  {
    var phs := Placeholders(prefix, names, i);
    assert phs[..j + 1] == phs[..j] + [phs[j]];
    JoinSnoc(",", phs[..j], phs[j]);
  }

  /** Trimming the trailing comma of a finished tuple and closing it leaves the row's tuple and a comma. */
  lemma CloseTuple(before: string, prefix: string, names: seq<string>, i: nat)
    ensures var sb := before + "(" + OpenTupleText(prefix, names, i, |names|);
      |sb| >= 1 && sb[..|sb| - 1] + ")," == before + RowTuple(prefix, names, i) + ","
  {
    var phs := Placeholders(prefix, names, i);
    assert phs[..|names|] == phs;
    if |names| == 0 {
      assert (before + "(" + "")[..|before|] == before;
    } else {
      var j := Join(",", phs);
      assert (before + "(" + (j + ","))[..|before| + 1 + |j|] == before + "(" + j;
      assert before + "(" + j + ")," == before + ("(" + j + ")") + ",";
    }
  }

  lemma RowsTuplesSnoc(prefix: string, names: seq<string>, count: nat, lo: nat, i: nat)
    requires i == lo + count
    ensures RowsTuples(prefix, names, count + 1, lo) == RowsTuples(prefix, names, count, lo) + [RowTuple(prefix, names, i)]
  {
  }

  lemma OpenBatchStep(header: string, prefix: string, names: seq<string>, count: nat, lo: nat, i: nat)
    requires i == lo + count
    ensures OpenBatchText(header, prefix, names, count, lo) + RowTuple(prefix, names, i) + ","
         == OpenBatchText(header, prefix, names, count + 1, lo)
  {
    var ts, t := RowsTuples(prefix, names, count, lo), RowTuple(prefix, names, i);
    RowsTuplesSnoc(prefix, names, count, lo, i);
    JoinSnoc(",", ts, t);
    if count == 0 {
      assert ts == [];
    } else {
      CommaJoinAssoc(header, Join(",", ts), t);
    }
  }

  /** Regrouping of the open tuple's text, kept apart so the loop step's proof stays small. */
  lemma TupleTextAssoc(before: string, open: string, name: string)
    ensures before + "(" + open + name + "," == before + "(" + (open + name + ",")
  {
  }

  /** Regrouping of the open batch's text, kept apart so the loop step's proof stays small. */
  lemma CommaJoinAssoc(header: string, j: string, t: string)
    ensures header + j + "," + t + "," == header + (j + "," + t) + ","
  {
  }

  lemma RowParamsSnoc(prefix: string, names: seq<string>, vals: seq<Value>, i: nat, j: nat, v: Value)
    requires j < |names| && |vals| == j
    ensures RowParams(prefix, names[..j + 1], vals + [v], i)
         == RowParams(prefix, names[..j], vals, i) + [(ParamName(prefix, names[j], i), v)]
  {
  }

  /** One more row of the open batch adds that row's parameters. */
  lemma RowsParamsAppendRow(prefix: string, names: seq<string>, chunk: seq<seq<Value>>, row: seq<Value>, lo: nat, i: nat)
    requires Rectangular(chunk, |names|) && |row| == |names| && i == lo + |chunk|
    ensures Rectangular(chunk + [row], |names|)
    ensures RowsParams(prefix, names, chunk + [row], lo) == RowsParams(prefix, names, chunk, lo) + RowParams(prefix, names, row, i)
  {
    RowsParamsSnoc(prefix, names, chunk + [row], lo);
    assert (chunk + [row])[..|chunk|] == chunk;
  }

  /** Trimming the trailing comma of the open batch leaves the header and the tuples. */
  lemma TrimOpenBatch(header: string, prefix: string, names: seq<string>, count: nat, lo: nat)
    requires count >= 1
    ensures var sb := OpenBatchText(header, prefix, names, count, lo);
      |sb| >= 1 && sb[..|sb| - 1] == header + Join(",", RowsTuples(prefix, names, count, lo))
  {
    var j := header + Join(",", RowsTuples(prefix, names, count, lo));
    assert (j + ",")[..|j|] == j;
  }

  /**
   * The rows side of the row loop's state after rows [0, i): `done` are the
   * values of the rows whose batches are emitted (`emitted` of them), `open`
   * those of the rows in the open batch.
   */
  ghost predicate RowLoopRows(srcs: seq<Source>, rows: seq<Row>, batchSize: nat,
                              i: nat, done: seq<seq<Value>>, open: seq<seq<Value>>, batchCount: nat, emitted: nat)
  {
    var e := EffectiveBatchSize(batchSize);
    && i <= |rows|
    && ResolveRows(rows[..i], srcs) == Ok(done + open)
    && Rectangular(done, |srcs|) && Rectangular(open, |srcs|)
    && |done| + |open| == i
    && batchCount == |open| < e
    && (i < |rows| ==> |done| == BatchStart(emitted, e))
    && (i == |rows| ==> open == [])
  }

  /** The output side: the emitted batches, and the open batch in the builder text and the parameter set. */
  ghost predicate RowLoopOutput(header: string, tail: string, prefix: string, names: seq<string>, batchSize: nat,
                                done: seq<seq<Value>>, open: seq<seq<Value>>, result: seq<Batch>, sb: string, parameters: seq<Param>)
  {
    && Rectangular(done, |names|) && Rectangular(open, |names|)
    && result == Batches(header, tail, prefix, names, done, batchSize)
    && sb == OpenBatchText(header, prefix, names, |open|, |done|)
    && parameters == RowsParams(prefix, names, open, |done|)
  }

  lemma RowLoopStart(header: string, tail: string, prefix: string, srcs: seq<Source>, rows: seq<Row>, batchSize: nat)
    ensures RowLoopRows(srcs, rows, batchSize, 0, [], [], 0, 0)
    ensures RowLoopOutput(header, tail, prefix, SourceNames(srcs), batchSize, [], [], [], header, [])
  {
    assert rows[..0] == [];
    var none: seq<seq<Value>> := [];
    assert none + none == none;
    BatchExists(0, 0, EffectiveBatchSize(batchSize));
  }

  /** Row i, resolved, joins the open batch; the batch is emitted when `close` holds. */
  lemma RowsStep(srcs: seq<Source>, rows: seq<Row>, batchSize: nat,
                 i: nat, done: seq<seq<Value>>, open: seq<seq<Value>>, batchCount: nat, emitted: nat, rowVals: seq<Value>, close: bool)
    requires RowLoopRows(srcs, rows, batchSize, i, done, open, batchCount, emitted)
    requires i < |rows| && ResolveRow(srcs, rows[i]) == Ok(rowVals)
    requires close == (i == |rows| - 1 || batchCount + 1 >= batchSize)
    ensures close ==> 1 <= |open + [rowVals]| <= EffectiveBatchSize(batchSize)
    ensures close ==> RowLoopRows(srcs, rows, batchSize, i + 1, done + (open + [rowVals]), [], 0, emitted + 1)
    ensures !close ==> RowLoopRows(srcs, rows, batchSize, i + 1, done, open + [rowVals], batchCount + 1, emitted)
  {
    ResolveRowsStep(rows, i, srcs);
    AppendAssoc(done, open, [rowVals]);
    RectangularAppend(open, [rowVals], |srcs|);
    if close {
      RectangularAppend(done, open + [rowVals], |srcs|);
      var none: seq<seq<Value>> := [];
      assert done + (open + [rowVals]) + none == done + (open + [rowVals]);
    }
  }

  /** Row i joins the open batch in the builder text and the parameter set. */
  lemma OutputGrows(header: string, tail: string, prefix: string, names: seq<string>, batchSize: nat,
                    done: seq<seq<Value>>, open: seq<seq<Value>>, result: seq<Batch>, sb: string, parameters: seq<Param>,
                    i: nat, rowVals: seq<Value>)
    requires RowLoopOutput(header, tail, prefix, names, batchSize, done, open, result, sb, parameters)
    requires i == |done| + |open| && |rowVals| == |names|
    ensures RowLoopOutput(header, tail, prefix, names, batchSize, done, open + [rowVals], result,
      sb + RowTuple(prefix, names, i) + ",", parameters + RowParams(prefix, names, rowVals, i))
  {
    OpenBatchStep(header, prefix, names, |open|, |done|, i);
    RowsParamsAppendRow(prefix, names, open, rowVals, |done|, i);
  }

  /** Emitting the open batch appends exactly the batch the specification puts next. */
  lemma EmitOpenBatch(header: string, tail: string, prefix: string, names: seq<string>, batchSize: nat,
                      done: seq<seq<Value>>, open: seq<seq<Value>>, result: seq<Batch>, text: string, parameters: seq<Param>)
    requires RowLoopOutput(header, tail, prefix, names, batchSize, done, open, result, text, parameters)
    requires |done| == BatchStart(|result|, EffectiveBatchSize(batchSize))
    requires 1 <= |open| <= EffectiveBatchSize(batchSize)
    ensures |text| >= 1
    ensures RowLoopOutput(header, tail, prefix, names, batchSize, done + open, [],
      result + [Batch(text[..|text| - 1] + tail, parameters)], header, [])
  {
    TrimOpenBatch(header, prefix, names, |open|, |done|);
    BatchesSnoc(header, tail, prefix, names, done, open, batchSize, |result|);
    assert RowsParams(prefix, names, [], |done + open|) == [];
  }

  /**
   * One pass of the row loop: row i, resolved to `rowVals`, joins the open
   * batch; when `close` holds the open batch is emitted and a new one starts.
   */
  lemma RowLoopAdvance(header: string, tail: string, prefix: string, srcs: seq<Source>, rows: seq<Row>, batchSize: nat,
                    i: nat, done: seq<seq<Value>>, open: seq<seq<Value>>, batchCount: nat,
                    result: seq<Batch>, sb: string, parameters: seq<Param>, rowVals: seq<Value>, close: bool)
    requires RowLoopRows(srcs, rows, batchSize, i, done, open, batchCount, |result|)
    requires RowLoopOutput(header, tail, prefix, SourceNames(srcs), batchSize, done, open, result, sb, parameters)
    requires i < |rows| && ResolveRow(srcs, rows[i]) == Ok(rowVals)
    requires close == (i == |rows| - 1 || batchCount + 1 >= batchSize)
    ensures var sb' := sb + RowTuple(prefix, SourceNames(srcs), i) + ",";
      var parameters' := parameters + RowParams(prefix, SourceNames(srcs), rowVals, i);
      && |sb'| >= 1
      && (close ==> RowLoopRows(srcs, rows, batchSize, i + 1, done + (open + [rowVals]), [], 0, |result| + 1))
      && (close ==> RowLoopOutput(header, tail, prefix, SourceNames(srcs), batchSize, done + (open + [rowVals]), [],
                                  result + [Batch(sb'[..|sb'| - 1] + tail, parameters')], header, []))
      && (!close ==> RowLoopRows(srcs, rows, batchSize, i + 1, done, open + [rowVals], batchCount + 1, |result|))
      && (!close ==> RowLoopOutput(header, tail, prefix, SourceNames(srcs), batchSize, done, open + [rowVals], result, sb', parameters'))
  {
    var names := SourceNames(srcs);
    RowsStep(srcs, rows, batchSize, i, done, open, batchCount, |result|, rowVals, close);
    OutputGrows(header, tail, prefix, names, batchSize, done, open, result, sb, parameters, i, rowVals);
    var sb' := sb + RowTuple(prefix, names, i) + ",";
    var parameters' := parameters + RowParams(prefix, names, rowVals, i);
    if close {
      EmitOpenBatch(header, tail, prefix, names, batchSize, done, open + [rowVals], result, sb', parameters');
    } else {
      assert |sb'| >= 1;
    }
  }

  /** The row loop's state after row i, whichever way the batch decision went. */
  lemma RowLoopStep(header: string, tail: string, prefix: string, srcs: seq<Source>, rows: seq<Row>, batchSize: nat,
                    i: nat, done: seq<seq<Value>>, open: seq<seq<Value>>, batchCount: nat,
                    result: seq<Batch>, sb: string, parameters: seq<Param>, rowVals: seq<Value>, close: bool,
                    done': seq<seq<Value>>, open': seq<seq<Value>>, batchCount': nat,
                    result': seq<Batch>, sb': string, parameters': seq<Param>, rowText: string, rowParams: seq<Param>)
    requires RowLoopRows(srcs, rows, batchSize, i, done, open, batchCount, |result|)
    requires RowLoopOutput(header, tail, prefix, SourceNames(srcs), batchSize, done, open, result, sb, parameters)
    requires i < |rows| && ResolveRow(srcs, rows[i]) == Ok(rowVals)
    requires close == (i == |rows| - 1 || batchCount + 1 >= batchSize)
    requires rowText == sb + RowTuple(prefix, SourceNames(srcs), i) + ","
    requires rowParams == parameters + RowParams(prefix, SourceNames(srcs), rowVals, i)
    requires |rowText| >= 1
    requires close ==> && done' == done + (open + [rowVals]) && open' == [] && batchCount' == 0
                       && result' == result + [Batch(rowText[..|rowText| - 1] + tail, rowParams)]
                       && sb' == header && parameters' == []
    requires !close ==> && done' == done && open' == open + [rowVals] && batchCount' == batchCount + 1
                        && result' == result && sb' == rowText && parameters' == rowParams
    ensures RowLoopRows(srcs, rows, batchSize, i + 1, done', open', batchCount', |result'|)
    ensures RowLoopOutput(header, tail, prefix, SourceNames(srcs), batchSize, done', open', result', sb', parameters')
  {
    RowLoopAdvance(header, tail, prefix, srcs, rows, batchSize, i, done, open, batchCount, result, sb, parameters, rowVals, close);
  }

  /** A row without a value for some column makes the whole insert fail with that cell's error. */
  lemma RowLoopFail(srcs: seq<Source>, rows: seq<Row>, batchSize: nat, i: nat, done: seq<seq<Value>>, open: seq<seq<Value>>,
                    batchCount: nat, emitted: nat, header: string, tail: string, prefix: string)
    requires RowLoopRows(srcs, rows, batchSize, i, done, open, batchCount, emitted)
    requires i < |rows| && ResolveRow(srcs, rows[i]).Err?
    ensures InsertBatches(header, tail, prefix, srcs, rows, batchSize) == Err(ResolveRow(srcs, rows[i]).error)
  {
    ResolveRowsStep(rows, i, srcs);
    ResolveRowsErrPrefix(rows, i + 1, srcs);
  }

  /** After the last row every batch has been emitted: the result is the whole insert. */
  lemma RowLoopEnd(header: string, tail: string, prefix: string, srcs: seq<Source>, rows: seq<Row>, batchSize: nat,
                   done: seq<seq<Value>>, open: seq<seq<Value>>, batchCount: nat,
                   result: seq<Batch>, sb: string, parameters: seq<Param>)
    requires RowLoopRows(srcs, rows, batchSize, |rows|, done, open, batchCount, |result|)
    requires RowLoopOutput(header, tail, prefix, SourceNames(srcs), batchSize, done, open, result, sb, parameters)
    ensures InsertBatches(header, tail, prefix, srcs, rows, batchSize) == Ok(result)
  {
    assert rows[..|rows|] == rows;
    assert done + open == done;
  }
}
