/**
 * The row step of `GenerateBulkUpdate`: `UPDATE {table} SET `, one
 * `c = @{prefix}c_i, ` per column to update (its value resolved first), the
 * last two characters trimmed, the WHERE line, and then the selectors' values
 * read straight from the row.
 */
module UpdateBuilder {
  import opened Common
  import opened Text
  import opened Resolution
  import opened Batching
  import opened InsertLoop
  import opened Update

  /** The builder's text inside the SET list after j columns: each assignment followed by `, `. */
  function OpenSetText(prefix: string, updates: seq<string>, i: nat, j: nat): string
    requires j <= |updates|
  {
    if j == 0 then "" else Join(", ", EqualsParams(prefix, updates, i)[..j]) + ", "
  }

  lemma OpenSetStep(prefix: string, updates: seq<string>, i: nat, j: nat)
    requires j < |updates|
    ensures OpenSetText(prefix, updates, i, j) + EqualsParam(prefix, updates[j], i) + ", " == OpenSetText(prefix, updates, i, j + 1)
  {
    var eqs := EqualsParams(prefix, updates, i);
    assert eqs[..j + 1] == eqs[..j] + [eqs[j]];
    JoinSnoc(", ", eqs[..j], eqs[j]);
  }

  /** Trimming the last two characters after the SET list leaves the row's SET clause (`SE` when there is no column). */
  lemma CloseSet(before: string, tableName: string, prefix: string, updates: seq<string>, i: nat)
    ensures var sb := before + ("UPDATE " + tableName + " SET ") + OpenSetText(prefix, updates, i, |updates|);
      |sb| >= 2 && sb[..|sb| - 2] == before + SetClause(tableName, prefix, updates, i)
  {
    var head := "UPDATE " + tableName + " SET ";
    if |updates| == 0 {
      var shortHead := "UPDATE " + tableName + " SE";
      assert head == shortHead + "T ";
      AppendAssoc(before, shortHead, "T ");
      TrimTwo(before + shortHead, "T ");
    } else {
      var j := Join(", ", EqualsParams(prefix, updates, i));
      OpenSetFull(prefix, updates, i);
      AppendAssoc(before + head, j, ", ");
      TrimTwo(before + head + j, ", ");
      AppendAssoc(before, head, j);
    }
  }

  lemma OpenSetFull(prefix: string, updates: seq<string>, i: nat)
    requires |updates| > 0
    ensures OpenSetText(prefix, updates, i, |updates|) == Join(", ", EqualsParams(prefix, updates, i)) + ", "
  {
    var eqs := EqualsParams(prefix, updates, i);
    assert eqs[..|updates|] == eqs;
  }

  lemma TrimTwo(a: string, b: string)
    requires |b| == 2
    ensures (a + b)[..|a + b| - 2] == a
  {
  }

  /**
   * One column of row i, the c-th of the columns to update followed by the
   * selectors: its value extends the row's values and its parameter, or its
   * failure is the row's failure.
   */
  lemma ColumnStep(prefix: string, updates: seq<string>, selectors: seq<string>, calculated: Option<CalculatedProperties>,
                   row: Row, i: nat, c: nat, vs: seq<Value>, parameters: seq<Param>, value: Result<Value>)
    requires c < |updates| + |selectors|
    requires ResolveRow(UpdateSources(updates, calculated, selectors)[..c], row) == Ok(vs)
    requires value == if c < |updates| then GetPropertyValue(updates[c], row, calculated) else FieldValue(selectors[c - |updates|], row)
    ensures (updates + selectors)[c] == if c < |updates| then updates[c] else selectors[c - |updates|]
    ensures value.Err? ==> ResolveRow(UpdateSources(updates, calculated, selectors), row) == Err(value.error)
    ensures value.Ok? ==> ResolveRow(UpdateSources(updates, calculated, selectors)[..c + 1], row) == Ok(vs + [value.value])
    ensures value.Ok? ==> |vs| == c
    ensures value.Ok? ==>
      parameters + RowParams(prefix, (updates + selectors)[..c], vs, i) + [(ParamName(prefix, (updates + selectors)[c], i), value.value)]
      == parameters + RowParams(prefix, (updates + selectors)[..c + 1], vs + [value.value], i)
  {
    var srcs := UpdateSources(updates, calculated, selectors);
    var names := updates + selectors;
    UpdateSourceAt(updates, calculated, selectors, c);
    ResolveRowStep(srcs, c, row);
    if value.Err? {
      ResolveRowErrPrefix(srcs, c + 1, row);
    } else {
      RowParamsSnoc(prefix, names, vs, i, c, value.value);
      AppendAssoc(parameters, RowParams(prefix, names[..c], vs, i), [(ParamName(prefix, names[c], i), value.value)]);
    }
  }

  /** Regrouping of the SET text, kept apart so the column loop's proof stays small. */
  lemma SetTextAssoc(before: string, open: string, column: string, name: string)
    ensures before + open + column + " = " + name + ", " == before + (open + (column + " = " + name) + ", ")
  {
  }

  /**
   * Row i of an update: the SET list (each value through
   * `GetPropertyValue`), the WHERE line, and the selectors' values. Fails
   * with the first column, in that order, that has no value.
   */
  method AppendUpdateRow(tableName: string, prefix: string, updates: seq<string>, selectors: seq<string>,
                         calculated: Option<CalculatedProperties>, row: Row, i: nat, sb: string, parameters: seq<Param>)
    returns (rowVals: Result<seq<Value>>, sb': string, parameters': seq<Param>)
    ensures rowVals == ResolveRow(UpdateSources(updates, calculated, selectors), row)
    ensures rowVals.Ok? ==> sb' == sb + RowStatement(tableName, prefix, updates, selectors, i)
    ensures rowVals.Ok? ==> parameters' == parameters + RowParams(prefix, updates + selectors, rowVals.value, i)
  {
    var setVals;
    setVals, sb', parameters' := AppendSetList(tableName, prefix, updates, selectors, calculated, row, i, sb, parameters);
    if setVals.Err? {
      return setVals, sb', parameters';
    }
    AppendAssoc(sb, SetClause(tableName, prefix, updates, i), WhereClause(prefix, selectors, i));
    sb' := sb' + WhereClause(prefix, selectors, i);
    rowVals, parameters' := AppendSelectorValues(prefix, updates, selectors, calculated, row, i, setVals.value, parameters, parameters');
  }

  /** One iteration of the SET loop: the invariants after column j + 1, or the row's failure. */
  lemma SetListStep(prefix: string, updates: seq<string>, selectors: seq<string>,
                    calculated: Option<CalculatedProperties>, row: Row, i: nat, start: string, parameters: seq<Param>,
                    j: nat, vs: seq<Value>, text: string, ps: seq<Param>, value: Result<Value>)
    requires j < |updates|
    requires ResolveRow(UpdateSources(updates, calculated, selectors)[..j], row) == Ok(vs)
    requires text == start + OpenSetText(prefix, updates, i, j)
    requires ps == parameters + RowParams(prefix, (updates + selectors)[..j], vs, i)
    requires value == GetPropertyValue(updates[j], row, calculated)
    ensures value.Err? ==> Err(value.error) == ResolveRow(UpdateSources(updates, calculated, selectors), row)
    ensures value.Ok? ==> ResolveRow(UpdateSources(updates, calculated, selectors)[..j + 1], row) == Ok(vs + [value.value])
    ensures value.Ok? ==> text + updates[j] + " = " + ParamName(prefix, updates[j], i) + ", "
                          == start + OpenSetText(prefix, updates, i, j + 1)
    ensures value.Ok? ==> ps + [(ParamName(prefix, updates[j], i), value.value)]
                          == parameters + RowParams(prefix, (updates + selectors)[..j + 1], vs + [value.value], i)
  {
    ColumnStep(prefix, updates, selectors, calculated, row, i, j, vs, parameters, value);
    if value.Ok? {
      var name := ParamName(prefix, updates[j], i);
      OpenSetStep(prefix, updates, i, j);
      SetTextAssoc(start, OpenSetText(prefix, updates, i, j), updates[j], name);
    }
  }

  /**
   * The SET part of row i: `UPDATE {table} SET `, the assignments of the
   * columns to update, and the last two characters removed.
   */
  method AppendSetList(tableName: string, prefix: string, updates: seq<string>, selectors: seq<string>,
                       calculated: Option<CalculatedProperties>, row: Row, i: nat, sb: string, parameters: seq<Param>)
    returns (setVals: Result<seq<Value>>, sb': string, parameters': seq<Param>)
    ensures setVals.Err? ==> setVals == ResolveRow(UpdateSources(updates, calculated, selectors), row)
    ensures setVals.Ok? ==> ResolveRow(UpdateSources(updates, calculated, selectors)[..|updates|], row) == setVals
    ensures setVals.Ok? ==> sb' == sb + SetClause(tableName, prefix, updates, i)
    ensures setVals.Ok? ==> parameters' == parameters + RowParams(prefix, (updates + selectors)[..|updates|], setVals.value, i)
  {
    sb' := sb + ("UPDATE " + tableName + " SET ");
    setVals, sb', parameters' := AppendAssignments(prefix, updates, selectors, calculated, row, i, sb', parameters);
    if setVals.Err? {
      return;
    }
    // Remove the trailing `, ` of the SET list.
    CloseSet(sb, tableName, prefix, updates, i);
    sb' := sb'[..|sb'| - 2];
  }

  /**
   * The loop over the columns to update: `c = @{prefix}c_i, ` after the
   * text `start` for each column c, its value resolved and bound; or the
   * first column without a value.
   */
  method AppendAssignments(prefix: string, updates: seq<string>, selectors: seq<string>,
                           calculated: Option<CalculatedProperties>, row: Row, i: nat, start: string, parameters: seq<Param>)
    returns (setVals: Result<seq<Value>>, sb': string, parameters': seq<Param>)
    ensures setVals.Err? ==> setVals == ResolveRow(UpdateSources(updates, calculated, selectors), row)
    ensures setVals.Ok? ==> ResolveRow(UpdateSources(updates, calculated, selectors)[..|updates|], row) == setVals
    ensures setVals.Ok? ==> sb' == start + OpenSetText(prefix, updates, i, |updates|)
    ensures setVals.Ok? ==> parameters' == parameters + RowParams(prefix, (updates + selectors)[..|updates|], setVals.value, i)
  {
    ghost var srcs := UpdateSources(updates, calculated, selectors);
    ghost var names := updates + selectors;
    sb' := start;
    parameters' := parameters;
    var vs: seq<Value> := [];
    var j := 0;
    while j < |updates|
      invariant 0 <= j <= |updates|
      invariant ResolveRow(srcs[..j], row) == Ok(vs)
      invariant sb' == start + OpenSetText(prefix, updates, i, j)
      invariant parameters' == parameters + RowParams(prefix, names[..j], vs, i)
    {
      var value := GetPropertyValue(updates[j], row, calculated);
      SetListStep(prefix, updates, selectors, calculated, row, i, start, parameters, j, vs, sb', parameters', value);
      if value.Err? {
        return Err(value.error), sb', parameters';
      }
      var name := ParamName(prefix, updates[j], i);
      parameters' := parameters' + [(name, value.value)];
      sb' := sb' + updates[j] + " = " + name + ", ";
      vs := vs + [value.value];
      j := j + 1;
    }
    setVals := Ok(vs);
  }

  /** One iteration of the selector loop: the invariants after selector k, or the row's failure. */
  lemma SelectorStep(prefix: string, updates: seq<string>, selectors: seq<string>, calculated: Option<CalculatedProperties>,
                     row: Row, i: nat, k: nat, c: nat, vs: seq<Value>, before: seq<Param>, ps: seq<Param>, value: Result<Value>)
    requires k < |selectors| && c == |updates| + k
    requires ResolveRow(UpdateSources(updates, calculated, selectors)[..c], row) == Ok(vs)
    requires ps == before + RowParams(prefix, (updates + selectors)[..c], vs, i)
    requires value == FieldValue(selectors[k], row)
    ensures value.Err? ==> ResolveRow(UpdateSources(updates, calculated, selectors), row) == Err(value.error)
    ensures value.Ok? ==> ResolveRow(UpdateSources(updates, calculated, selectors)[..c + 1], row) == Ok(vs + [value.value])
    ensures value.Ok? ==> ps + [(ParamName(prefix, selectors[k], i), value.value)]
                          == before + RowParams(prefix, (updates + selectors)[..c + 1], vs + [value.value], i)
  {
    ColumnStep(prefix, updates, selectors, calculated, row, i, c, vs, before, value);
  }

  /** Once every column is done, the slices the loops carry are the whole lists. */
  lemma WholeColumns(updates: seq<string>, selectors: seq<string>, calculated: Option<CalculatedProperties>, c: nat)
    requires c == |updates| + |selectors|
    ensures UpdateSources(updates, calculated, selectors)[..c] == UpdateSources(updates, calculated, selectors)
    ensures (updates + selectors)[..c] == updates + selectors
  {
  }

  /** The second part of row i: each selector's value, read straight from the row, after the values set. */
  method AppendSelectorValues(prefix: string, updates: seq<string>, selectors: seq<string>,
                              calculated: Option<CalculatedProperties>, row: Row, i: nat, setVals: seq<Value>,
                              ghost before: seq<Param>, parameters: seq<Param>)
    returns (rowVals: Result<seq<Value>>, parameters': seq<Param>)
    requires ResolveRow(UpdateSources(updates, calculated, selectors)[..|updates|], row) == Ok(setVals)
    requires parameters == before + RowParams(prefix, (updates + selectors)[..|updates|], setVals, i)
    ensures rowVals == ResolveRow(UpdateSources(updates, calculated, selectors), row)
    ensures rowVals.Ok? ==> parameters' == before + RowParams(prefix, updates + selectors, rowVals.value, i)
  {
    ghost var srcs := UpdateSources(updates, calculated, selectors);
    ghost var names := updates + selectors;
    parameters' := parameters;
    var vs := setVals;
    var k := 0;
    ghost var c := |updates|;
    while k < |selectors|
      invariant 0 <= k <= |selectors| && c == |updates| + k
      invariant ResolveRow(srcs[..c], row) == Ok(vs)
      invariant parameters' == before + RowParams(prefix, names[..c], vs, i)
    {
      var value := FieldValue(selectors[k], row);
      SelectorStep(prefix, updates, selectors, calculated, row, i, k, c, vs, before, parameters', value);
      if value.Err? {
        return Err(value.error), parameters';
      }
      parameters' := parameters' + [(ParamName(prefix, selectors[k], i), value.value)];
      vs := vs + [value.value];
      k, c := k + 1, c + 1;
    }
    WholeColumns(updates, selectors, calculated, c);
    rowVals := Ok(vs);
  }

  /** One iteration of a row loop: the resolved rows and parameters after row i + 1, or the call's failure. */
  lemma RowsLoopStep(prefix: string, names: seq<string>, srcs: seq<Source>, rows: seq<Row>, i: nat,
                     vals: seq<seq<Value>>, ps: seq<Param>, rowVals: Result<seq<Value>>)
    requires i < |rows| && |srcs| == |names|
    requires ResolveRows(rows[..i], srcs) == Ok(vals)
    requires Rectangular(vals, |names|)
    requires ps == RowsParams(prefix, names, vals, 0)
    requires rowVals == ResolveRow(srcs, rows[i])
    ensures rowVals.Err? ==> ResolveRows(rows, srcs) == Err(rowVals.error)
    ensures rowVals.Ok? ==> ResolveRows(rows[..i + 1], srcs) == Ok(vals + [rowVals.value])
    ensures rowVals.Ok? ==> Rectangular(vals + [rowVals.value], |names|)
    ensures rowVals.Ok? ==> ps + RowParams(prefix, names, rowVals.value, i) == RowsParams(prefix, names, vals + [rowVals.value], 0)
  {
    ResolveRowsStep(rows, i, srcs);
    if rowVals.Err? {
      ResolveRowsErrPrefix(rows, i + 1, srcs);
    } else {
      RowsParamsAppendRow(prefix, names, vals, rowVals.value, 0, i);
    }
  }

  /** The text after row i: the text before it and row i's statement line. */
  lemma StatementsStep(opener: string, tableName: string, prefix: string, updates: seq<string>, selectors: seq<string>, i: nat)
    ensures opener + Concat(RowStatements(tableName, prefix, updates, selectors, i)) + RowStatement(tableName, prefix, updates, selectors, i)
         == opener + Concat(RowStatements(tableName, prefix, updates, selectors, i + 1))
  {
    var stmts := RowStatements(tableName, prefix, updates, selectors, i);
    var stmt := RowStatement(tableName, prefix, updates, selectors, i);
    RowStatementsSnoc(tableName, prefix, updates, selectors, i);
    ConcatSnoc(stmts, stmt);
    AppendAssoc(opener, Concat(stmts), stmt);
  }

  /** The statement lines of n + 1 rows are those of n rows followed by row n's line. */
  lemma RowStatementsSnoc(tableName: string, prefix: string, updates: seq<string>, selectors: seq<string>, n: nat)
    ensures RowStatements(tableName, prefix, updates, selectors, n + 1)
         == RowStatements(tableName, prefix, updates, selectors, n) + [RowStatement(tableName, prefix, updates, selectors, n)]
  {
    var a := RowStatements(tableName, prefix, updates, selectors, n + 1);
    var b := RowStatements(tableName, prefix, updates, selectors, n) + [RowStatement(tableName, prefix, updates, selectors, n)];
    forall k | 0 <= k < n + 1
      ensures a[k] == b[k]
    {
    }
  }

  /**
   * The row loop of the update generator: one statement line and one run
   * of parameters per row, after the text `sb` already holds; or the first
   * value that cannot be found.
   */
  method AppendUpdateRows(tableName: string, prefix: string, updates: seq<string>, selectors: seq<string>,
                          calculated: Option<CalculatedProperties>, rows: seq<Row>, sb: string)
    returns (vals: Result<seq<seq<Value>>>, sb': string, parameters: seq<Param>)
    ensures vals == ResolveRows(rows, UpdateSources(updates, calculated, selectors))
    ensures vals.Ok? ==> sb' == sb + Concat(RowStatements(tableName, prefix, updates, selectors, |rows|))
    ensures vals.Ok? ==> Rectangular(vals.value, |updates + selectors|)
                         && parameters == RowsParams(prefix, updates + selectors, vals.value, 0)
  {
    ghost var srcs := UpdateSources(updates, calculated, selectors);
    ghost var names := updates + selectors;
    sb' := sb;
    parameters := [];
    var done: seq<seq<Value>> := [];
    assert RowStatements(tableName, prefix, updates, selectors, 0) == [];
    assert rows[..0] == [];
    var i := 0;
    while i < |rows|
      invariant 0 <= i <= |rows|
      invariant ResolveRows(rows[..i], srcs) == Ok(done)
      invariant Rectangular(done, |names|)
      invariant sb' == sb + Concat(RowStatements(tableName, prefix, updates, selectors, i))
      invariant parameters == RowsParams(prefix, names, done, 0)
    {
      var rowVals, text, ps := AppendUpdateRow(tableName, prefix, updates, selectors, calculated, rows[i], i, sb', parameters);
      RowsLoopStep(prefix, names, srcs, rows, i, done, parameters, rowVals);
      StatementsStep(sb, tableName, prefix, updates, selectors, i);
      if rowVals.Err? {
        return Err(rowVals.error), sb', parameters;
      }
      sb', parameters := text, ps;
      done := done + [rowVals.value];
      i := i + 1;
    }
    assert rows[..i] == rows;
    vals := Ok(done);
  }

  /** How the update call's result follows from the checked arguments and the row loop's outcome. */
  lemma UpdateQueryFromRows(transactionOpen: string, transactionClose: string, tableName: string, rows: seq<Row>,
                            selectors: seq<string>, updates: seq<string>, calculated: Option<CalculatedProperties>,
                            useTransaction: bool, prefix: string, vals: Result<seq<seq<Value>>>, text: string, ps: seq<Param>)
    requires ValidateUpdate(tableName, selectors, updates) == None
    requires |rows| > 0
    requires vals == ResolveRows(rows, UpdateSources(updates, calculated, selectors))
    ensures vals.Err? ==>
      UpdateQuery(transactionOpen, transactionClose, tableName, rows, selectors, updates, calculated, useTransaction, prefix)
      == Err(vals.error)
    ensures vals.Ok?
         && text == Opener(transactionOpen, useTransaction) + Concat(RowStatements(tableName, prefix, updates, selectors, |rows|))
         && ps == RowsParams(prefix, updates + selectors, vals.value, 0)
        ==> UpdateQuery(transactionOpen, transactionClose, tableName, rows, selectors, updates, calculated, useTransaction, prefix)
            == Ok(Batch(text + Closer(transactionClose, useTransaction), ps))
  {
  }
}
