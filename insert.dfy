/**
 * `GenerateBulkInsert` of the shared generator: the statement header built
 * from the table and the column list, the conflict clause, where each
 * column's value comes from, and what the batches of one call look like.
 */
module Insert {
  import opened Common
  import opened Text
  import opened Resolution
  import opened Batching
  import opened InsertSpec

  /** `INSERT INTO {table} ({columns joined by ","}) VALUES `, the text every batch starts with. */
  function InsertHeader(tableName: string, columnNames: seq<string>): (h: string)
    ensures StartsWith(h, "INSERT INTO " + tableName + " (") && EndsWith(h, ") VALUES ")
  {
    var h := "INSERT INTO " + tableName + " (" + Join(",", columnNames) + ") VALUES ";
    assert h[..|"INSERT INTO " + tableName + " ("|] == "INSERT INTO " + tableName + " (";
    assert h[|h| - |") VALUES "|..] == ") VALUES ";
    h
  }

  /** The literal Postgres appends to skip conflicting rows. */
  const OnConflictDoNothing: string := " ON CONFLICT DO NOTHING"

  /** The conflict clause of an insert: present only for Npgsql with `DoNothing`. */
  function ConflictClause(dbType: DatabaseType, onConflict: OnConflict): (c: string)
    ensures c == OnConflictDoNothing || c == ""
    ensures c != "" <==> dbType == Npgsql && onConflict == DoNothing
  {
    if dbType == Npgsql && onConflict == DoNothing then OnConflictDoNothing else ""
  }

  /** Every listed column takes its value through `GetPropertyValue`, with the caller's overrides. */
  function InsertSources(columnNames: seq<string>, calculated: Option<CalculatedProperties>): (srcs: seq<Source>)
    ensures |srcs| == |columnNames| && SourceNames(srcs) == columnNames
    ensures forall j :: 0 <= j < |srcs| ==> srcs[j] == Resolved(columnNames[j], calculated)
  {
    var srcs := seq(|columnNames|, j requires 0 <= j < |columnNames| => Resolved(columnNames[j], calculated));
    assert SourceNames(srcs) == columnNames;
    srcs
  }

  /**
   * The statements of one insert call: batches of the header, the rows'
   * tuples and the conflict clause followed by `;`. Nothing is validated:
   * the only failures are a column `GetPropertyValue` cannot find and an
   * exception of a calculated property.
   */
  function InsertStatements(dbType: DatabaseType, tableName: string, rows: seq<Row>, columnNames: seq<string>,
                            calculated: Option<CalculatedProperties>, batchSize: nat, prefix: string, onConflict: OnConflict)
    : (r: Result<seq<Batch>>)
    ensures r.Ok? ==> |r.value| == BatchCount(|rows|, EffectiveBatchSize(batchSize))
    ensures r.Err? ==> (exists j :: 0 <= j < |columnNames| && r.error == UnknownColumn(columnNames[j])) || r.error.PassThrough?
  {
    var srcs := InsertSources(columnNames, calculated);
    var r := InsertBatches(InsertHeader(tableName, columnNames), ConflictClause(dbType, onConflict) + ";", prefix, srcs, rows, batchSize);
    if r.Err? then
      ResolveRowsErrorKind(rows, srcs);
      r
    else
      r
  }

  /**
   * Every statement starts with the header and ends with `;`; it ends with
   * ` ON CONFLICT DO NOTHING;` exactly when the target is Npgsql and the
   * policy is `DoNothing`.
   */
  lemma InsertStatementShape(dbType: DatabaseType, tableName: string, rows: seq<Row>, columnNames: seq<string>,
                             calculated: Option<CalculatedProperties>, batchSize: nat, prefix: string, onConflict: OnConflict, k: nat)
    requires InsertStatements(dbType, tableName, rows, columnNames, calculated, batchSize, prefix, onConflict).Ok?
    requires k < |InsertStatements(dbType, tableName, rows, columnNames, calculated, batchSize, prefix, onConflict).value|
    ensures var q := InsertStatements(dbType, tableName, rows, columnNames, calculated, batchSize, prefix, onConflict).value[k].query;
      && StartsWith(q, InsertHeader(tableName, columnNames))
      && EndsWith(q, ";")
      && (EndsWith(q, OnConflictDoNothing + ";") <==> dbType == Npgsql && onConflict == DoNothing)
  {
    var header, clause := InsertHeader(tableName, columnNames), ConflictClause(dbType, onConflict);
    var srcs := InsertSources(columnNames, calculated);
    InsertStatementsUnfold(dbType, tableName, rows, columnNames, calculated, batchSize, prefix, onConflict);
    InsertBatchesValue(header, clause + ";", prefix, srcs, rows, batchSize);
    BatchQueryShape(header, clause + ";", prefix, SourceNames(srcs), ResolveRows(rows, srcs).value, batchSize, k);
    ConflictTailShape(InsertStatements(dbType, tableName, rows, columnNames, calculated, batchSize, prefix, onConflict).value[k].query,
                      header, clause);
  }

  /**
   * A statement made of the header, tuples ending with `)` and the clause
   * followed by `;` ends with the `DoNothing` literal exactly when the
   * clause is that literal: a `)` is never part of it.
   */
  lemma ConflictTailShape(q: string, header: string, clause: string)
    requires clause == OnConflictDoNothing || clause == ""
    requires |q| >= |header| + 1 + |clause + ";"|
    requires q[..|header|] == header
    requires q[|q| - |clause + ";"|..] == clause + ";"
    requires q[|q| - |clause + ";"| - 1] == ')'
    ensures StartsWith(q, header) && EndsWith(q, ";")
    ensures EndsWith(q, OnConflictDoNothing + ";") <==> clause != ""
  {
    var tail := clause + ";";
    assert q[|q| - 1..] == tail[|tail| - 1..];
    if clause == "" {
      var literal := OnConflictDoNothing + ";";
      assert q[|q| - 2] == ')';
      assert literal[|literal| - 2] == 'G';
    }
  }

  /** On SQL Server the `DoNothing` policy is ignored: the output is that of `Error`. */
  lemma SqlServerIgnoresDoNothing(tableName: string, rows: seq<Row>, columnNames: seq<string>,
                                  calculated: Option<CalculatedProperties>, batchSize: nat, prefix: string)
    ensures InsertStatements(SqlServer, tableName, rows, columnNames, calculated, batchSize, prefix, DoNothing)
         == InsertStatements(SqlServer, tableName, rows, columnNames, calculated, batchSize, prefix, Error)
  {
  }

  /** The `Error` policy adds no clause on either engine: every statement ends with the last tuple and `;`. */
  lemma ErrorPolicyAddsNothing(dbType: DatabaseType, tableName: string, rows: seq<Row>, columnNames: seq<string>,
                               calculated: Option<CalculatedProperties>, batchSize: nat, prefix: string)
    ensures InsertStatements(dbType, tableName, rows, columnNames, calculated, batchSize, prefix, Error)
         == InsertBatches(InsertHeader(tableName, columnNames), ";", prefix, InsertSources(columnNames, calculated), rows, batchSize)
  {
    assert ConflictClause(dbType, Error) + ";" == ";";
  }

  /** An insert succeeds exactly when `GetPropertyValue` finds a value for every (row, column) cell. */
  lemma InsertSucceedsIffValuesFound(dbType: DatabaseType, tableName: string, rows: seq<Row>, columnNames: seq<string>,
                                     calculated: Option<CalculatedProperties>, batchSize: nat, prefix: string, onConflict: OnConflict)
    ensures InsertStatements(dbType, tableName, rows, columnNames, calculated, batchSize, prefix, onConflict).Ok?
        <==> forall i, j :: 0 <= i < |rows| && 0 <= j < |columnNames| ==> GetPropertyValue(columnNames[j], rows[i], calculated).Ok?
  {
    var srcs := InsertSources(columnNames, calculated);
    ResolveRowsIffAllCells(rows, srcs);
  }

  /**
   * The value of cell (i, j) is `GetPropertyValue(column j, row i)`, bound
   * in batch i / e under `@{prefix}{column j}_{i}`, e being the effective
   * batch size.
   */
  lemma InsertBindsPropertyValue(dbType: DatabaseType, tableName: string, rows: seq<Row>, columnNames: seq<string>,
                                 calculated: Option<CalculatedProperties>, batchSize: nat, prefix: string, onConflict: OnConflict,
                                 i: nat, j: nat)
    requires InsertStatements(dbType, tableName, rows, columnNames, calculated, batchSize, prefix, onConflict).Ok?
    requires i < |rows| && j < |columnNames|
    ensures GetPropertyValue(columnNames[j], rows[i], calculated).Ok?
    ensures var e := EffectiveBatchSize(batchSize);
      ParamAt(InsertStatements(dbType, tableName, rows, columnNames, calculated, batchSize, prefix, onConflict).value,
              i / e, (i % e) * |columnNames| + j)
      == Some((ParamName(prefix, columnNames[j], i), GetPropertyValue(columnNames[j], rows[i], calculated).value))
  {
    var header, tail := InsertHeader(tableName, columnNames), ConflictClause(dbType, onConflict) + ";";
    var srcs := InsertSources(columnNames, calculated);
    InsertStatementsUnfold(dbType, tableName, rows, columnNames, calculated, batchSize, prefix, onConflict);
    InsertSourceAt(columnNames, calculated, j);
    InsertBatchesBindsResolved(header, tail, prefix, columnNames, calculated, rows, batchSize, i, j);
  }

  /** Resolved column j of row i is bound in batch i / e, as in any multi-row insert. */
  lemma InsertBatchesBindsResolved(header: string, tail: string, prefix: string, columnNames: seq<string>,
                                   calculated: Option<CalculatedProperties>, rows: seq<Row>, batchSize: nat, i: nat, j: nat)
    requires InsertBatches(header, tail, prefix, InsertSources(columnNames, calculated), rows, batchSize).Ok?
    requires i < |rows| && j < |columnNames|
    ensures GetPropertyValue(columnNames[j], rows[i], calculated).Ok?
    ensures var e := EffectiveBatchSize(batchSize);
      ParamAt(InsertBatches(header, tail, prefix, InsertSources(columnNames, calculated), rows, batchSize).value,
              i / e, (i % e) * |columnNames| + j)
      == Some((ParamName(prefix, columnNames[j], i), GetPropertyValue(columnNames[j], rows[i], calculated).value))
  {
    var srcs := InsertSources(columnNames, calculated);
    InsertSourceAt(columnNames, calculated, j);
    var cell := CellValue(srcs[j], rows[i]);
    assert cell == GetPropertyValue(columnNames[j], rows[i], calculated);
    InsertCellParameter(header, tail, prefix, srcs, rows, batchSize, i, j);
  }

  /** An insert call is the multi-row insert of its header, its tail and its columns' sources. */
  lemma InsertStatementsUnfold(dbType: DatabaseType, tableName: string, rows: seq<Row>, columnNames: seq<string>,
                               calculated: Option<CalculatedProperties>, batchSize: nat, prefix: string, onConflict: OnConflict)
    ensures InsertStatements(dbType, tableName, rows, columnNames, calculated, batchSize, prefix, onConflict)
         == InsertBatches(InsertHeader(tableName, columnNames), ConflictClause(dbType, onConflict) + ";", prefix,
                          InsertSources(columnNames, calculated), rows, batchSize)
  {
  }

  /** Column j's source, and the width of the value tuples. */
  lemma InsertSourceAt(columnNames: seq<string>, calculated: Option<CalculatedProperties>, j: nat)
    requires j < |columnNames|
    ensures |InsertSources(columnNames, calculated)| == |columnNames|
    ensures InsertSources(columnNames, calculated)[j] == Resolved(columnNames[j], calculated)
  {
  }

  /** Equal batches, positions, names and cells bind the same parameter; a substitution step kept apart so the callers' proofs stay small. */
  lemma SameParam(bs: seq<Batch>, bs': seq<Batch>, k: int, p: int, p': int, name: string, name': string,
                  cell: Result<Value>, cell': Result<Value>)
    requires bs == bs' && p == p' && name == name' && cell == cell'
    requires cell.Ok? && ParamAt(bs, k, p) == Some((name, cell.value))
    ensures cell'.Ok? && ParamAt(bs', k, p') == Some((name', cell'.value))
  {
  }
}
