/**
 * `GenerateBulkUpdate`: argument validation, then one
 * `UPDATE {table} SET c = @{prefix}c_i, ... WHERE s = @{prefix}s_i AND ...;`
 * line per row, optionally wrapped in the dialect's transaction literals.
 * The SET values go through `GetPropertyValue`; the WHERE values are read
 * straight from the row.
 */
module Update {
  import opened Common
  import opened Text
  import opened Resolution
  import opened Batching

  const NoSelectorsMessage: string := "GenerateBulkUpdate received no selector properties"
  const NoUpdateColumnsMessage: string := "GenerateBulkUpdate received no properties to update"
  const NoTableNameMessage: string := "GenerateBulkUpdate received no table name"

  /**
   * The argument checks as they are written: the second check tests the
   * selector list again, so an empty list of columns to update passes.
   */
  function ValidateUpdate(tableName: string, selectors: seq<string>, updates: seq<string>): (r: Option<GenerationError>)
    ensures r.Some? <==> |selectors| == 0 || tableName == ""
    ensures r.Some? ==> r.value == InvalidArgument(if |selectors| == 0 then NoSelectorsMessage else NoTableNameMessage)
  {
    if |selectors| < 1 then Some(InvalidArgument(NoSelectorsMessage))
    else if |selectors| < 1 then Some(InvalidArgument(NoUpdateColumnsMessage))
    else if tableName == "" then Some(InvalidArgument(NoTableNameMessage))
    else None
  }

  /** The argument checks as their messages describe them: selectors, then columns to update, then the table name. */
  function ValidateUpdateIntended(tableName: string, selectors: seq<string>, updates: seq<string>): (r: Option<GenerationError>)
    ensures r.Some? <==> |selectors| == 0 || |updates| == 0 || tableName == ""
    ensures r.Some? ==> r.value == InvalidArgument(
      if |selectors| == 0 then NoSelectorsMessage else if |updates| == 0 then NoUpdateColumnsMessage else NoTableNameMessage)
  {
    if |selectors| < 1 then Some(InvalidArgument(NoSelectorsMessage))
    else if |updates| < 1 then Some(InvalidArgument(NoUpdateColumnsMessage))
    else if tableName == "" then Some(InvalidArgument(NoTableNameMessage))
    else None
  }

  /** The two checks agree whenever there is a column to update. */
  lemma ValidationAgreesWithColumns(tableName: string, selectors: seq<string>, updates: seq<string>)
    requires |updates| > 0
    ensures ValidateUpdateIntended(tableName, selectors, updates) == ValidateUpdate(tableName, selectors, updates)
  {
  }

  /** `{column} = @{prefix}{column}_{i}`, one assignment of a SET list or one condition of a WHERE clause. */
  function EqualsParam(prefix: string, column: string, i: nat): string
  {
    column + " = " + ParamName(prefix, column, i)
  }

  function EqualsParams(prefix: string, columns: seq<string>, i: nat): (eqs: seq<string>)
    ensures |eqs| == |columns|
    ensures forall j :: 0 <= j < |columns| ==> eqs[j] == EqualsParam(prefix, columns[j], i)
  {
    seq(|columns|, j requires 0 <= j < |columns| => EqualsParam(prefix, columns[j], i))
  }

  /**
   * The SET part of row i's statement. The builder writes each assignment
   * followed by `, ` and then removes the last two characters; with no
   * columns to update those are the `T ` of `SET `.
   */
  function SetClause(tableName: string, prefix: string, updates: seq<string>, i: nat): (c: string)
    ensures StartsWith(c, "UPDATE " + tableName + " SE")
    ensures StartsWith(c, "UPDATE " + tableName + " SET ") <==> |updates| > 0
  {
    var head := "UPDATE " + tableName + " SET ";
    if |updates| == 0 then
      var c := "UPDATE " + tableName + " SE";
      assert c[..|c|] == c;
      c
    else
      var c := head + Join(", ", EqualsParams(prefix, updates, i));
      assert c[..|head|] == head;
      assert c[..|head| - 2] == head[..|head| - 2];
      c
  }

  /** The WHERE part of row i's statement, with the terminator and the line break. */
  function WhereClause(prefix: string, selectors: seq<string>, i: nat): (w: string)
    ensures StartsWith(w, " WHERE ") && EndsWith(w, ";" + NewLine)
  {
    var w := " WHERE " + Join(" AND ", EqualsParams(prefix, selectors, i)) + ";" + NewLine;
    assert w[..7] == " WHERE ";
    assert w[|w| - 2..] == ";" + NewLine;
    w
  }

  /** The statement line of row i. */
  function RowStatement(tableName: string, prefix: string, updates: seq<string>, selectors: seq<string>, i: nat): string
  {
    SetClause(tableName, prefix, updates, i) + WhereClause(prefix, selectors, i)
  }

  /**
   * Every statement line starts with the SET clause and ends with `;` and a
   * line break; it has a whole `SET ` exactly when there is a column to update.
   */
  lemma RowStatementShape(tableName: string, prefix: string, updates: seq<string>, selectors: seq<string>, i: nat)
    ensures var s := RowStatement(tableName, prefix, updates, selectors, i);
      StartsWith(s, "UPDATE " + tableName + " SE") && EndsWith(s, ";" + NewLine)
    ensures StartsWith(RowStatement(tableName, prefix, updates, selectors, i), "UPDATE " + tableName + " SET ") <==> |updates| > 0
  {
    var setPart := SetClause(tableName, prefix, updates, i);
    var where := WhereClause(prefix, selectors, i);
    var s := setPart + where;
    var head := "UPDATE " + tableName + " SET ";
    assert s[..|setPart|] == setPart;
    assert s[|s| - 2..] == where[|where| - 2..];
    if |updates| == 0 {
      assert s[|head| - 2] == where[0] == ' ' != head[|head| - 2];
    } else {
      assert s[..|head|] == setPart[..|head|];
    }
  }

  /** The statement lines of rows 0 .. n - 1. */
  function RowStatements(tableName: string, prefix: string, updates: seq<string>, selectors: seq<string>, n: nat): (stmts: seq<string>)
    ensures |stmts| == n
    ensures forall i :: 0 <= i < n ==> stmts[i] == RowStatement(tableName, prefix, updates, selectors, i)
  {
    seq(n, i requires 0 <= i < n => RowStatement(tableName, prefix, updates, selectors, i))
  }

  /** The text written before the first statement: the transaction opener and a line break, if asked for. */
  function Opener(transactionOpen: string, useTransaction: bool): string
  {
    if useTransaction then transactionOpen + NewLine else ""
  }

  /** The text written after the last statement. */
  function Closer(transactionClose: string, useTransaction: bool): string
  {
    if useTransaction then transactionClose + NewLine else ""
  }

  /** Columns to update take their values through `GetPropertyValue`; selectors are read straight from the row. */
  function UpdateSources(updates: seq<string>, calculated: Option<CalculatedProperties>, selectors: seq<string>): (srcs: seq<Source>)
    ensures |srcs| == |updates| + |selectors|
  {
    seq(|updates|, j requires 0 <= j < |updates| => Resolved(updates[j], calculated))
    + seq(|selectors|, j requires 0 <= j < |selectors| => Field(selectors[j]))
  }

  /** The sources of an update name the columns to update and then the selectors, in order. */
  lemma UpdateSourcesShape(updates: seq<string>, calculated: Option<CalculatedProperties>, selectors: seq<string>)
    ensures var srcs := UpdateSources(updates, calculated, selectors);
      && SourceNames(srcs) == updates + selectors
      && (forall j :: 0 <= j < |updates| ==> srcs[j] == Resolved(updates[j], calculated))
      && (forall j :: 0 <= j < |selectors| ==> srcs[|updates| + j] == Field(selectors[j]))
  {
    var srcs := UpdateSources(updates, calculated, selectors);
    assert SourceNames(srcs) == updates + selectors;
  }

  /**
   * What an update produces once its arguments are accepted: one binding
   * per row and column, or a value that cannot be found; the rows never
   * yield an argument error.
   */
  function UpdateRows(transactionOpen: string, transactionClose: string, tableName: string, rows: seq<Row>,
                      selectors: seq<string>, updates: seq<string>, calculated: Option<CalculatedProperties>,
                      useTransaction: bool, prefix: string): (r: Result<Batch>)
    ensures r.Ok? ==> |r.value.parameters| == |rows| * (|updates| + |selectors|)
    ensures r.Err? ==> !r.error.InvalidArgument?
  {
    if |rows| == 0 then Ok(Batch("", []))
    else
      var srcs := UpdateSources(updates, calculated, selectors);
      var res := ResolveRows(rows, srcs);
      if res.Err? then
        ResolveRowsErrorKind(rows, srcs);
        Err(res.error)
      else
        UpdateBindingCount(prefix, rows, srcs, updates, selectors);
        Ok(Batch(UpdateText(transactionOpen, transactionClose, tableName, prefix, updates, selectors, |rows|, useTransaction),
                 RowsParams(prefix, updates + selectors, res.value, 0)))
  }

  /** Resolved rows bind one parameter per row and column. */
  lemma UpdateBindingCount(prefix: string, rows: seq<Row>, srcs: seq<Source>, updates: seq<string>, selectors: seq<string>)
    requires ResolveRows(rows, srcs).Ok? && |updates| + |selectors| == |srcs|
    ensures Rectangular(ResolveRows(rows, srcs).value, |updates + selectors|)
    ensures |RowsParams(prefix, updates + selectors, ResolveRows(rows, srcs).value, 0)| == |rows| * (|updates| + |selectors|)
  {
    var names := updates + selectors;
    assert |names| == |updates| + |selectors|;
    RowsParamsLength(prefix, names, ResolveRows(rows, srcs).value, 0);
  }

  /** The text of an update of n rows: the statement lines, inside the transaction statements if asked for. */
  function UpdateText(transactionOpen: string, transactionClose: string, tableName: string, prefix: string,
                      updates: seq<string>, selectors: seq<string>, n: nat, useTransaction: bool): string
  {
    Opener(transactionOpen, useTransaction)
    + Concat(RowStatements(tableName, prefix, updates, selectors, n))
    + Closer(transactionClose, useTransaction)
  }

  /**
   * An update call as the generator runs it: the arguments checked as
   * written, then the rows.
   */
  function UpdateQuery(transactionOpen: string, transactionClose: string, tableName: string, rows: seq<Row>,
                       selectors: seq<string>, updates: seq<string>, calculated: Option<CalculatedProperties>,
                       useTransaction: bool, prefix: string): (r: Result<Batch>)
    ensures r.Ok? ==> |selectors| > 0 && tableName != ""
    ensures r.Ok? ==> |r.value.parameters| == |rows| * (|updates| + |selectors|)
  {
    match ValidateUpdate(tableName, selectors, updates)
    case Some(e) => Err(e)
    case None => UpdateRows(transactionOpen, transactionClose, tableName, rows, selectors, updates, calculated, useTransaction, prefix)
  }

  /** An update call with the arguments checked as the messages describe them. */
  function UpdateQueryIntended(transactionOpen: string, transactionClose: string, tableName: string, rows: seq<Row>,
                               selectors: seq<string>, updates: seq<string>, calculated: Option<CalculatedProperties>,
                               useTransaction: bool, prefix: string): (r: Result<Batch>)
    ensures r.Ok? ==> |selectors| > 0 && |updates| > 0 && tableName != ""
    ensures r.Ok? ==> |r.value.parameters| == |rows| * (|updates| + |selectors|)
  {
    match ValidateUpdateIntended(tableName, selectors, updates)
    case Some(e) => Err(e)
    case None => UpdateRows(transactionOpen, transactionClose, tableName, rows, selectors, updates, calculated, useTransaction, prefix)
  }

  /**
   * An update is refused with an argument error exactly when there is no
   * selector or no table name, with the message of the first failed check;
   * no row is looked at then, and a row without a value never yields an
   * argument error. An empty list of columns to update is not refused.
   */
  lemma UpdateRejectsIff(transactionOpen: string, transactionClose: string, tableName: string, rows: seq<Row>,
                         selectors: seq<string>, updates: seq<string>, calculated: Option<CalculatedProperties>,
                         useTransaction: bool, prefix: string)
    ensures var r := UpdateQuery(transactionOpen, transactionClose, tableName, rows, selectors, updates, calculated, useTransaction, prefix);
      r.Err? && r.error.InvalidArgument? <==> |selectors| == 0 || tableName == ""
    ensures var r := UpdateQuery(transactionOpen, transactionClose, tableName, rows, selectors, updates, calculated, useTransaction, prefix);
      r.Err? && r.error.InvalidArgument? ==> r.error == InvalidArgument(if |selectors| == 0 then NoSelectorsMessage else NoTableNameMessage)
  {
    var srcs := UpdateSources(updates, calculated, selectors);
    if ValidateUpdate(tableName, selectors, updates).None? && |rows| > 0 && ResolveRows(rows, srcs).Err? {
      ResolveRowsErrorKind(rows, srcs);
    }
  }

  /**
   * The intended update refuses an empty list of columns to update, with
   * the message written for it, and otherwise is the update as written.
   */
  lemma IntendedUpdateRejectsNoColumns(transactionOpen: string, transactionClose: string, tableName: string, rows: seq<Row>,
                                       selectors: seq<string>, updates: seq<string>, calculated: Option<CalculatedProperties>,
                                       useTransaction: bool, prefix: string)
    ensures |updates| == 0 ==>
      UpdateQueryIntended(transactionOpen, transactionClose, tableName, rows, selectors, updates, calculated, useTransaction, prefix)
      == Err(InvalidArgument(if |selectors| == 0 then NoSelectorsMessage else NoUpdateColumnsMessage))
    ensures |updates| > 0 ==>
      UpdateQueryIntended(transactionOpen, transactionClose, tableName, rows, selectors, updates, calculated, useTransaction, prefix)
      == UpdateQuery(transactionOpen, transactionClose, tableName, rows, selectors, updates, calculated, useTransaction, prefix)
  {
    if |updates| > 0 {
      ValidationAgreesWithColumns(tableName, selectors, updates);
    }
  }

  /** Accepted arguments and no rows: an empty statement and no parameters. */
  lemma UpdateNoRows(transactionOpen: string, transactionClose: string, tableName: string,
                     selectors: seq<string>, updates: seq<string>, calculated: Option<CalculatedProperties>,
                     useTransaction: bool, prefix: string)
    requires ValidateUpdate(tableName, selectors, updates).None?
    ensures UpdateQuery(transactionOpen, transactionClose, tableName, [], selectors, updates, calculated, useTransaction, prefix)
         == Ok(Batch("", []))
  {
  }

  /**
   * With accepted arguments, an update succeeds exactly when every row has
   * a value for each column to update (a property or an override) and has
   * each selector property.
   */
  lemma UpdateSucceedsIffValuesFound(transactionOpen: string, transactionClose: string, tableName: string, rows: seq<Row>,
                                     selectors: seq<string>, updates: seq<string>, calculated: Option<CalculatedProperties>,
                                     useTransaction: bool, prefix: string)
    requires ValidateUpdate(tableName, selectors, updates).None?
    ensures UpdateQuery(transactionOpen, transactionClose, tableName, rows, selectors, updates, calculated, useTransaction, prefix).Ok?
        <==> && (forall i, j :: 0 <= i < |rows| && 0 <= j < |updates| ==> GetPropertyValue(updates[j], rows[i], calculated).Ok?)
             && (forall i, j :: 0 <= i < |rows| && 0 <= j < |selectors| ==> selectors[j] in rows[i])
  {
    var srcs := UpdateSources(updates, calculated, selectors);
    UpdateOkIffRowsResolve(transactionOpen, transactionClose, tableName, rows, selectors, updates, calculated, useTransaction, prefix);
    ResolveRowsIffAllCells(rows, srcs);
    UpdateCellsResolveIff(rows, updates, calculated, selectors);
  }

  /** With accepted arguments, an update succeeds exactly when its rows resolve. */
  lemma UpdateOkIffRowsResolve(transactionOpen: string, transactionClose: string, tableName: string, rows: seq<Row>,
                               selectors: seq<string>, updates: seq<string>, calculated: Option<CalculatedProperties>,
                               useTransaction: bool, prefix: string)
    requires ValidateUpdate(tableName, selectors, updates).None?
    ensures UpdateQuery(transactionOpen, transactionClose, tableName, rows, selectors, updates, calculated, useTransaction, prefix).Ok?
        <==> ResolveRows(rows, UpdateSources(updates, calculated, selectors)).Ok?
  {
  }

  /** Every cell of an update resolves exactly when each value to set and each selector is found. */
  lemma UpdateCellsResolveIff(rows: seq<Row>, updates: seq<string>, calculated: Option<CalculatedProperties>, selectors: seq<string>)
    ensures AllCellsResolve(UpdateSources(updates, calculated, selectors), rows)
        <==> && (forall i, j :: 0 <= i < |rows| && 0 <= j < |updates| ==> GetPropertyValue(updates[j], rows[i], calculated).Ok?)
             && (forall i, j :: 0 <= i < |rows| && 0 <= j < |selectors| ==> selectors[j] in rows[i])
  {
    var srcs := UpdateSources(updates, calculated, selectors);
    UpdateSourcesShape(updates, calculated, selectors);
    if AllCellsResolve(srcs, rows) {
      forall i, j | 0 <= i < |rows| && 0 <= j < |selectors| ensures selectors[j] in rows[i] {
        assert CellValue(srcs[|updates| + j], rows[i]).Ok?;
      }
    } else {
      var i, j :| 0 <= i < |rows| && 0 <= j < |srcs| && CellValue(srcs[j], rows[i]).Err?;
      if j >= |updates| {
        assert srcs[|updates| + (j - |updates|)] == Field(selectors[j - |updates|]);
      }
    }
  }

  /**
   * The transaction literals frame the statement lines exactly when a
   * transaction is asked for; without one the text is the statement lines
   * alone.
   */
  lemma UpdateEnvelope(transactionOpen: string, transactionClose: string, tableName: string, rows: seq<Row>,
                       selectors: seq<string>, updates: seq<string>, calculated: Option<CalculatedProperties>,
                       useTransaction: bool, prefix: string)
    requires UpdateQuery(transactionOpen, transactionClose, tableName, rows, selectors, updates, calculated, useTransaction, prefix).Ok?
    requires |rows| > 0
    ensures var q := UpdateQuery(transactionOpen, transactionClose, tableName, rows, selectors, updates, calculated, useTransaction, prefix).value.query;
      var body := Concat(RowStatements(tableName, prefix, updates, selectors, |rows|));
      && (useTransaction ==> StartsWith(q, transactionOpen + NewLine) && EndsWith(q, transactionClose + NewLine)
                             && q[|transactionOpen + NewLine|..|q| - |transactionClose + NewLine|] == body)
      && (!useTransaction ==> q == body)
  {
    UpdateQueryText(transactionOpen, transactionClose, tableName, rows, selectors, updates, calculated, useTransaction, prefix);
    TextEnvelope(transactionOpen, transactionClose, tableName, prefix, updates, selectors, |rows|, useTransaction);
  }

  /** The text of n statement lines, framed by the transaction statements or bare. */
  lemma TextEnvelope(transactionOpen: string, transactionClose: string, tableName: string, prefix: string,
                     updates: seq<string>, selectors: seq<string>, n: nat, useTransaction: bool)
    ensures var q := UpdateText(transactionOpen, transactionClose, tableName, prefix, updates, selectors, n, useTransaction);
      var body := Concat(RowStatements(tableName, prefix, updates, selectors, n));
      && (useTransaction ==> StartsWith(q, transactionOpen + NewLine) && EndsWith(q, transactionClose + NewLine)
                             && q[|transactionOpen + NewLine|..|q| - |transactionClose + NewLine|] == body)
      && (!useTransaction ==> q == body)
  {
    var body := Concat(RowStatements(tableName, prefix, updates, selectors, n));
    if useTransaction {
      Framed(transactionOpen + NewLine, body, transactionClose + NewLine);
    } else {
      assert "" + body + "" == body;
    }
  }

  /** The text of an accepted update with rows. */
  lemma UpdateQueryText(transactionOpen: string, transactionClose: string, tableName: string, rows: seq<Row>,
                        selectors: seq<string>, updates: seq<string>, calculated: Option<CalculatedProperties>,
                        useTransaction: bool, prefix: string)
    requires UpdateQuery(transactionOpen, transactionClose, tableName, rows, selectors, updates, calculated, useTransaction, prefix).Ok?
    requires |rows| > 0
    ensures UpdateQuery(transactionOpen, transactionClose, tableName, rows, selectors, updates, calculated, useTransaction, prefix).value.query
         == UpdateText(transactionOpen, transactionClose, tableName, prefix, updates, selectors, |rows|, useTransaction)
  {
  }

  /** A text framed by `o` and `c` starts with `o`, ends with `c` and holds `body` in between. */
  lemma Framed(o: string, body: string, c: string)
    ensures var q := o + body + c;
      StartsWith(q, o) && EndsWith(q, c) && q[|o|..|q| - |c|] == body
  {
    var q := o + body + c;
    assert q[..|o|] == o;
    assert q[|q| - |c|..] == c;
    assert q[|o|..|q| - |c|] == body;
  }

  /**
   * Column j to update of row i is bound, as parameter
   * i * (|updates| + |selectors|) + j, to the value `GetPropertyValue`
   * gives: an override applies.
   */
  lemma UpdateBindsSetValue(transactionOpen: string, transactionClose: string, tableName: string, rows: seq<Row>,
                            selectors: seq<string>, updates: seq<string>, calculated: Option<CalculatedProperties>,
                            useTransaction: bool, prefix: string, r: Batch, i: nat, j: nat)
    requires UpdateQuery(transactionOpen, transactionClose, tableName, rows, selectors, updates, calculated, useTransaction, prefix) == Ok(r)
    requires i < |rows| && j < |updates|
    ensures 0 <= i * |updates| + i * |selectors| + j < |r.parameters|
    ensures r.parameters[i * |updates| + i * |selectors| + j].0 == ParamName(prefix, updates[j], i)
    ensures GetPropertyValue(updates[j], rows[i], calculated) == Ok(r.parameters[i * |updates| + i * |selectors| + j].1)
  {
    UpdateParameters(transactionOpen, transactionClose, tableName, rows, selectors, updates, calculated, useTransaction, prefix, r);
    RowCellParam(prefix, rows, updates, calculated, selectors, i, j);
  }

  /**
   * Selector j of row i is bound, as parameter
   * i * (|updates| + |selectors|) + |updates| + j, to the row's own
   * property: overrides never apply to selectors.
   */
  lemma UpdateBindsSelectorValue(transactionOpen: string, transactionClose: string, tableName: string, rows: seq<Row>,
                                 selectors: seq<string>, updates: seq<string>, calculated: Option<CalculatedProperties>,
                                 useTransaction: bool, prefix: string, r: Batch, i: nat, j: nat)
    requires UpdateQuery(transactionOpen, transactionClose, tableName, rows, selectors, updates, calculated, useTransaction, prefix) == Ok(r)
    requires i < |rows| && j < |selectors|
    ensures 0 <= i * |updates| + i * |selectors| + (|updates| + j) < |r.parameters|
    ensures r.parameters[i * |updates| + i * |selectors| + (|updates| + j)].0 == ParamName(prefix, selectors[j], i)
    ensures selectors[j] in rows[i] && r.parameters[i * |updates| + i * |selectors| + (|updates| + j)].1 == rows[i][selectors[j]]
  {
    UpdateParameters(transactionOpen, transactionClose, tableName, rows, selectors, updates, calculated, useTransaction, prefix, r);
    RowSelectorParam(prefix, rows, updates, calculated, selectors, i, j);
  }

  /** The parameters of an accepted update with rows: those of the resolved rows, numbered from 0. */
  lemma UpdateParameters(transactionOpen: string, transactionClose: string, tableName: string, rows: seq<Row>,
                         selectors: seq<string>, updates: seq<string>, calculated: Option<CalculatedProperties>,
                         useTransaction: bool, prefix: string, r: Batch)
    requires UpdateQuery(transactionOpen, transactionClose, tableName, rows, selectors, updates, calculated, useTransaction, prefix) == Ok(r)
    requires |rows| > 0
    ensures var res := ResolveRows(rows, UpdateSources(updates, calculated, selectors));
      res.Ok? && r.parameters == RowsParams(prefix, updates + selectors, res.value, 0)
  {
    UpdateAccepted(transactionOpen, transactionClose, tableName, rows, selectors, updates, calculated, useTransaction, prefix);
  }

  /** A successful update passed the argument checks and is what its rows produce. */
  lemma UpdateAccepted(transactionOpen: string, transactionClose: string, tableName: string, rows: seq<Row>,
                       selectors: seq<string>, updates: seq<string>, calculated: Option<CalculatedProperties>,
                       useTransaction: bool, prefix: string)
    requires UpdateQuery(transactionOpen, transactionClose, tableName, rows, selectors, updates, calculated, useTransaction, prefix).Ok?
    ensures ValidateUpdate(tableName, selectors, updates) == None
    ensures UpdateRows(transactionOpen, transactionClose, tableName, rows, selectors, updates, calculated, useTransaction, prefix)
         == UpdateQuery(transactionOpen, transactionClose, tableName, rows, selectors, updates, calculated, useTransaction, prefix)
  {
  }

  /** Cell (i, c) of the resolved rows of an update, in their parameters. */
  lemma RowCellParam(prefix: string, rows: seq<Row>, updates: seq<string>, calculated: Option<CalculatedProperties>,
                     selectors: seq<string>, i: nat, c: nat)
    requires ResolveRows(rows, UpdateSources(updates, calculated, selectors)).Ok?
    requires i < |rows| && c < |updates| + |selectors|
    ensures var srcs := UpdateSources(updates, calculated, selectors);
      var ps := RowsParams(prefix, updates + selectors, ResolveRows(rows, srcs).value, 0);
      && 0 <= i * |updates| + i * |selectors| + c < |ps|
      && ps[i * |updates| + i * |selectors| + c].0 == ParamName(prefix, (updates + selectors)[c], i)
      && (c < |updates| ==> GetPropertyValue(updates[c], rows[i], calculated) == Ok(ps[i * |updates| + i * |selectors| + c].1))
      && (c >= |updates| ==> FieldValue(selectors[c - |updates|], rows[i]) == Ok(ps[i * |updates| + i * |selectors| + c].1))
  {
    var srcs := UpdateSources(updates, calculated, selectors);
    var vals := ResolveRows(rows, srcs).value;
    CellParamAt(prefix, updates + selectors, vals, |updates|, |selectors|, i, c);
    ResolvedCell(rows, srcs, i, c);
    UpdateSourceAt(updates, calculated, selectors, c);
  }

  lemma RowSelectorParam(prefix: string, rows: seq<Row>, updates: seq<string>, calculated: Option<CalculatedProperties>,
                         selectors: seq<string>, i: nat, j: nat)
    requires ResolveRows(rows, UpdateSources(updates, calculated, selectors)).Ok?
    requires i < |rows| && j < |selectors|
    ensures var ps := RowsParams(prefix, updates + selectors, ResolveRows(rows, UpdateSources(updates, calculated, selectors)).value, 0);
      && 0 <= i * |updates| + i * |selectors| + (|updates| + j) < |ps|
      && ps[i * |updates| + i * |selectors| + (|updates| + j)].0 == ParamName(prefix, selectors[j], i)
      && selectors[j] in rows[i] && ps[i * |updates| + i * |selectors| + (|updates| + j)].1 == rows[i][selectors[j]]
  {
    var c := |updates| + j;
    RowCellParam(prefix, rows, updates, calculated, selectors, i, c);
    assert c - |updates| == j;
    assert (updates + selectors)[c] == selectors[j];
  }

  /** Source c of an update: a column to update first, a selector after them. */
  lemma UpdateSourceAt(updates: seq<string>, calculated: Option<CalculatedProperties>, selectors: seq<string>, c: nat)
    requires c < |updates| + |selectors|
    ensures (updates + selectors)[c] == if c < |updates| then updates[c] else selectors[c - |updates|]
    ensures UpdateSources(updates, calculated, selectors)[c]
         == if c < |updates| then Resolved(updates[c], calculated) else Field(selectors[c - |updates|])
  {
  }

  /**
   * Cell (i, j) of rows of width a + b is parameter i * (a + b) + j of
   * their parameters (the product written out).
   */
  lemma CellParamAt(prefix: string, names: seq<string>, vals: seq<seq<Value>>, a: nat, b: nat, i: nat, j: nat)
    requires Rectangular(vals, |names|) && a + b == |names| && i < |vals| && j < |names|
    ensures 0 <= i * a + i * b + j < |RowsParams(prefix, names, vals, 0)|
    ensures RowsParams(prefix, names, vals, 0)[i * a + i * b + j] == (ParamName(prefix, names[j], i), vals[i][j])
  {
    RowsParamsAt(prefix, names, vals, 0, i, j);
    MulMono(0, i, a);
    MulMono(0, i, b);
    MulDistrib(i, a, b);
  }

  /** Distribution of a product over a sum, kept apart so the parameter-index proofs stay small. */
  lemma MulDistrib(i: nat, a: nat, b: nat)
    ensures i * (a + b) == i * a + i * b
  {
  }

  /** With distinct columns (updated and selectors together), no parameter name is bound twice. */
  lemma UpdateNamesUnique(transactionOpen: string, transactionClose: string, tableName: string, rows: seq<Row>,
                          selectors: seq<string>, updates: seq<string>, calculated: Option<CalculatedProperties>,
                          useTransaction: bool, prefix: string)
    requires UpdateQuery(transactionOpen, transactionClose, tableName, rows, selectors, updates, calculated, useTransaction, prefix).Ok?
    requires DistinctColumns(updates + selectors)
    ensures DistinctNames(UpdateQuery(transactionOpen, transactionClose, tableName, rows, selectors, updates, calculated, useTransaction, prefix).value.parameters)
  {
    if |rows| > 0 {
      RowsParamsDistinct(prefix, updates + selectors, ResolveRows(rows, UpdateSources(updates, calculated, selectors)).value, 0);
    }
  }

  /**
   * Every call the intended checks accept has a column to update, so every
   * statement line starts with a complete `SET` and its first assignment.
   */
  lemma AcceptedStatementsHaveSet(tableName: string, prefix: string, selectors: seq<string>, updates: seq<string>, i: nat)
    requires ValidateUpdateIntended(tableName, selectors, updates).None?
    ensures StartsWith(RowStatement(tableName, prefix, updates, selectors, i),
                       "UPDATE " + tableName + " SET " + EqualsParam(prefix, updates[0], i))
  {
    var eqs := EqualsParams(prefix, updates, i);
    JoinStartsWithFirst(", ", eqs);
    var head := "UPDATE " + tableName + " SET ";
    var s := head + Join(", ", eqs) + WhereClause(prefix, selectors, i);
    assert s == head + (Join(", ", eqs) + WhereClause(prefix, selectors, i));
    assert s[..|head + eqs[0]|] == head + eqs[0];
  }

  /**
   * The checks as written accept a call with no column to update; its
   * statement then reads `UPDATE {table} SE WHERE ...`, which is not SQL.
   */
  lemma EmptyUpdateListAccepted()
    ensures ValidateUpdate("TestTable", ["Id"], []) == None
    ensures var r := UpdateQuery("BEGIN;", "COMMIT;", "TestTable", [map["Id" := Int(1)]], ["Id"], [], None, false, "");
      && r == Ok(Batch("UPDATE TestTable SE WHERE Id = @Id_0;" + NewLine, [("@Id_0", Int(1))]))
      && !StartsWith(r.value.query, "UPDATE TestTable SET")
  {
    var srcs := UpdateSources([], None, ["Id"]);
    assert srcs == [Field("Id")];
    assert [] + ["Id"] == ["Id"];
    ExampleResolves();
    ExampleParams();
    ExampleStatements();
    var q := "UPDATE TestTable SE WHERE Id = @Id_0;" + NewLine;
    assert Opener("BEGIN;", false) + q + Closer("COMMIT;", false) == q;
    assert q[19] == ' ';
  }

  lemma ExampleName()
    ensures ParamName("", "Id", 0) == "@Id_0"
  {
    assert NatToString(0) == "0" by { assert DigitChar(0) == '0'; }
  }

  lemma ExampleResolves()
    ensures ResolveRows([map["Id" := Int(1)]], [Field("Id")]) == Ok([[Int(1)]])
  {
    var rows: seq<Row> := [map["Id" := Int(1)]];
    var srcs := [Field("Id")];
    assert ResolveRow(srcs, rows[0]) == Ok([Int(1)]) by {
      ResolveRowStep(srcs, 0, rows[0]);
      assert srcs[..0] == [] && srcs[..1] == srcs;
      assert CellValue(srcs[0], rows[0]) == Ok(Int(1));
      assert ResolveRow(srcs[..0], rows[0]) == Ok([]);
      assert [] + [Int(1)] == [Int(1)];
    }
    ResolveRowsStep(rows, 0, srcs);
    assert rows[..0] == [] && rows[..1] == rows;
    assert ResolveRows(rows[..0], srcs) == Ok([]);
    assert [] + [[Int(1)]] == [[Int(1)]];
  }

  lemma ExampleParams()
    ensures RowsParams("", ["Id"], [[Int(1)]], 0) == [("@Id_0", Int(1))]
  {
    ExampleName();
    var ps := RowParams("", ["Id"], [Int(1)], 0);
    assert ps[0] == ("@Id_0", Int(1));
    var xss := seq(1, t requires 0 <= t < 1 => RowParams("", ["Id"], [[Int(1)]][t], 0 + t));
    assert xss[0] == ps;
    assert xss[..0] == [];
    assert Flatten(xss) == Flatten(xss[..0]) + xss[0];
  }

  lemma ExampleStatements()
    ensures Concat(RowStatements("TestTable", "", [], ["Id"], 1)) == "UPDATE TestTable SE WHERE Id = @Id_0;" + NewLine
  {
    var stmt := RowStatement("TestTable", "", [], ["Id"], 0);
    ExampleStatement();
    var stmts := RowStatements("TestTable", "", [], ["Id"], 1);
    assert stmts[..0] == [];
    assert Concat(stmts) == Concat(stmts[..0]) + stmt;
  }

  lemma ExampleStatement()
    ensures RowStatement("TestTable", "", [], ["Id"], 0) == "UPDATE TestTable SE WHERE Id = @Id_0;" + NewLine
  {
    ExampleWhere();
    assert SetClause("TestTable", "", [], 0) == "UPDATE TestTable SE";
  }

  lemma ExampleWhere()
    ensures WhereClause("", ["Id"], 0) == " WHERE Id = @Id_0;" + NewLine
  {
    ExampleName();
    var eqs := EqualsParams("", ["Id"], 0);
    assert eqs[0] == "Id = @Id_0";
    assert Join(" AND ", eqs) == "Id = @Id_0";
  }
}
