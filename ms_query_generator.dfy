/**
 * The SQL Server generator: the shared generator with `BEGIN TRANSACTION;`
 * and `COMMIT;` as its transaction statements.
 */
module MsQueryGenerator {
  import opened Common
  import opened Text
  import opened Update
  import opened QueryGenerator
  import opened PgQueryGenerator

  /** The statement that opens a SQL Server transaction. */
  const MsTransactionOpen: string := "BEGIN TRANSACTION;"
  /** The statement that closes a SQL Server transaction. */
  const MsTransactionClose: string := "COMMIT;"

  /** `new MsQueryGenerator()`: a fresh shared generator holding the SQL Server literals. */
  method NewMsQueryGenerator() returns (g: QueryGeneratorBase)
    ensures fresh(g)
    ensures g.transactionOpen == MsTransactionOpen && g.transactionClose == MsTransactionClose
  {
    g := new QueryGeneratorBase(MsTransactionOpen, MsTransactionClose);
  }

  /** Both literals end with `;`; the closing one is the Postgres one, the opening ones differ. */
  lemma MsLiterals()
    ensures EndsWith(MsTransactionOpen, ";") && EndsWith(MsTransactionClose, ";")
    ensures MsTransactionClose == PgTransactionClose
    ensures MsTransactionOpen != PgTransactionOpen
  {
  }

  /**
   * A transactional update from this generator is `BEGIN TRANSACTION;` and
   * a line break, the statement lines, then `COMMIT;` and a line break.
   */
  lemma MsTransactionalUpdate(tableName: string, rows: seq<Row>, selectors: seq<string>, updates: seq<string>,
                              calculated: Option<CalculatedProperties>, prefix: string)
    requires UpdateQuery(MsTransactionOpen, MsTransactionClose, tableName, rows, selectors, updates, calculated, true, prefix).Ok?
    requires |rows| > 0
    ensures var q := UpdateQuery(MsTransactionOpen, MsTransactionClose, tableName, rows, selectors, updates, calculated, true, prefix).value.query;
      && StartsWith(q, "BEGIN TRANSACTION;" + NewLine) && EndsWith(q, "COMMIT;" + NewLine)
      && q[|"BEGIN TRANSACTION;" + NewLine|..|q| - |"COMMIT;" + NewLine|] == Concat(RowStatements(tableName, prefix, updates, selectors, |rows|))
  {
    UpdateEnvelope(MsTransactionOpen, MsTransactionClose, tableName, rows, selectors, updates, calculated, true, prefix);
  }

  /**
   * Without a transaction neither literal is written: the text is the
   * statement lines alone, so both generators give the same update.
   */
  lemma PlainUpdateSameForBothGenerators(tableName: string, rows: seq<Row>, selectors: seq<string>, updates: seq<string>,
                                         calculated: Option<CalculatedProperties>, prefix: string)
    ensures UpdateQuery(MsTransactionOpen, MsTransactionClose, tableName, rows, selectors, updates, calculated, false, prefix)
         == UpdateQuery(PgTransactionOpen, PgTransactionClose, tableName, rows, selectors, updates, calculated, false, prefix)
    ensures var r := UpdateQuery(MsTransactionOpen, MsTransactionClose, tableName, rows, selectors, updates, calculated, false, prefix);
      r.Ok? ==> r.value.query == Concat(RowStatements(tableName, prefix, updates, selectors, |rows|))
  {
    var r := UpdateQuery(MsTransactionOpen, MsTransactionClose, tableName, rows, selectors, updates, calculated, false, prefix);
    if r.Ok? {
      if |rows| > 0 {
        UpdateEnvelope(MsTransactionOpen, MsTransactionClose, tableName, rows, selectors, updates, calculated, false, prefix);
      } else {
        assert RowStatements(tableName, prefix, updates, selectors, 0) == [];
      }
    }
  }

  /**
   * Inserts and deletes do not read the transaction statements: both
   * generators give the same output for the same arguments, whatever the
   * database engine, calculated properties, batch size, prefix and conflict
   * policy named.
   */
  method InsertAndDeleteIgnoreGenerator(dbType: DatabaseType, tableName: string, rows: seq<Row>, columnNames: seq<string>,
                                        calculated: Option<CalculatedProperties>, batchSize: nat, onConflict: OnConflict,
                                        selectorColumnName: string, selectorValues: seq<Value>, paramPrefix: string)
    returns (insertPg: Result<seq<Batch>>, insertMs: Result<seq<Batch>>, deletePg: Batch, deleteMs: Batch)
    ensures insertPg == insertMs && deletePg == deleteMs
  {
    var pg := NewPgQueryGenerator();
    var ms := NewMsQueryGenerator();
    insertPg := pg.GenerateBulkInsert(dbType, tableName, rows, columnNames, calculated, batchSize, paramPrefix, onConflict);
    insertMs := ms.GenerateBulkInsert(dbType, tableName, rows, columnNames, calculated, batchSize, paramPrefix, onConflict);
    deletePg := pg.GenerateBulkDelete(dbType, tableName, selectorColumnName, selectorValues, paramPrefix);
    deleteMs := ms.GenerateBulkDelete(dbType, tableName, selectorColumnName, selectorValues, paramPrefix);
  }
}
