/**
 * The shared generator: an object holding the engine's transaction syntax,
 * whose three operations build the insert batches, the delete statement
 * and the update script of one call, step by step, and are each proved to
 * produce what the specification functions of `Insert`, `Delete` and
 * `Update` describe.
 */
module QueryGenerator {
  import opened Common
  import opened Text
  import opened Resolution
  import opened Batching
  import opened InsertBuilder
  import opened Insert
  import opened Delete
  import opened Update
  import opened UpdateBuilder

  class QueryGeneratorBase {
    /** The statement that opens a transaction, `;` included. */
    const transactionOpen: string
    /** The statement that closes a transaction, `;` included. */
    const transactionClose: string

    constructor (transactionOpen: string, transactionClose: string)
      ensures this.transactionOpen == transactionOpen && this.transactionClose == transactionClose
    {
      this.transactionOpen := transactionOpen;
      this.transactionClose := transactionClose;
    }

    /**
     * The insert batches of `rowObjects`: at most `batchSize` rows per
     * statement, each statement closed by the conflict clause (Npgsql and
     * `DoNothing` only) and `;`, or the first value that cannot be found.
     */
    method GenerateBulkInsert(dbType: DatabaseType, tableName: string, rowObjects: seq<Row>, columnNames: seq<string>,
                              calculated: Option<CalculatedProperties> := None, batchSize: nat := 100,
                              paramPrefix: string := "", onConflict: OnConflict := OnConflict.Error)
      returns (r: Result<seq<Batch>>)
      ensures r == InsertStatements(dbType, tableName, rowObjects, columnNames, calculated, batchSize, paramPrefix, onConflict)
    {
      var sqlBase := "INSERT INTO " + tableName + " (" + Join(",", columnNames) + ") VALUES ";
      var tail := if dbType == Npgsql && onConflict == DoNothing then OnConflictDoNothing + ";" else ";";
      assert tail == ConflictClause(dbType, onConflict) + ";";
      r := BuildInsertBatches(sqlBase, tail, paramPrefix, InsertSources(columnNames, calculated), rowObjects, batchSize);
    }

    /** The delete statement: the x-th selector value bound under the x-th placeholder of the `IN` list. */
    method GenerateBulkDelete(dbType: DatabaseType, tableName: string, selectorColumnName: string,
                              selectorValues: seq<Value>, paramPrefix: string := "")
      returns (r: Batch)
      ensures r == DeleteStatement(tableName, selectorColumnName, selectorValues, paramPrefix)
    {
      var parameters: seq<Param> := [];
      for i := 0 to |selectorValues|
        invariant parameters == DeleteParams(paramPrefix, selectorColumnName, selectorValues[..i])
      {
        DeleteParamsSnoc(paramPrefix, selectorColumnName, selectorValues, i);
        parameters := parameters + [(ParamName(paramPrefix, selectorColumnName, i), selectorValues[i])];
      }
      assert selectorValues[..|selectorValues|] == selectorValues;
      var sb := "DELETE FROM " + tableName + " WHERE " + selectorColumnName + " IN (";
      sb := sb + Join(",", DeletePlaceholders(paramPrefix, selectorColumnName, |selectorValues|));
      sb := sb + ");";
      r := Batch(sb, parameters);
    }

    /**
     * The update script: the arguments checked, then one `UPDATE` line per
     * row, inside this generator's transaction statements when asked for,
     * or the first value that cannot be found.
     */
    method GenerateBulkUpdate(dbType: DatabaseType, tableName: string, rowObjects: seq<Row>,
                              selectorColumnNames: seq<string>, columnNamesToUpdate: seq<string>,
                              calculated: Option<CalculatedProperties> := None, useTransaction: bool := true,
                              paramPrefix: string := "")
      returns (r: Result<Batch>)
      ensures r == UpdateQuery(transactionOpen, transactionClose, tableName, rowObjects, selectorColumnNames,
                               columnNamesToUpdate, calculated, useTransaction, paramPrefix)
    {
      // No selector or no table name is an argument error; the second check
      // tests the selectors again, so an empty list of columns to update passes.
      var invalid := ValidateUpdate(tableName, selectorColumnNames, columnNamesToUpdate);
      if invalid.Some? {
        return Err(invalid.value);
      }
      if |rowObjects| == 0 {
        return Ok(Batch("", []));
      }

      var sb := "";
      if useTransaction {
        sb := sb + (transactionOpen + NewLine);
      }
      assert sb == Opener(transactionOpen, useTransaction);
      var vals, parameters;
      vals, sb, parameters := AppendUpdateRows(tableName, paramPrefix, columnNamesToUpdate, selectorColumnNames,
                                               calculated, rowObjects, sb);
      if vals.Err? {
        UpdateQueryFromRows(transactionOpen, transactionClose, tableName, rowObjects, selectorColumnNames, columnNamesToUpdate,
                            calculated, useTransaction, paramPrefix, vals, sb, parameters);
        return Err(vals.error);
      }
      ghost var body := sb;
      if useTransaction {
        sb := sb + (transactionClose + NewLine);
      }
      assert sb == body + Closer(transactionClose, useTransaction);
      UpdateQueryFromRows(transactionOpen, transactionClose, tableName, rowObjects, selectorColumnNames, columnNamesToUpdate,
                          calculated, useTransaction, paramPrefix, vals, body, parameters);
      r := Ok(Batch(sb, parameters));
    }
  }
}
