/**
 * The Postgres generator: the shared generator with `BEGIN;` and `COMMIT;`
 * as its transaction statements.
 */
module PgQueryGenerator {
  import opened Common
  import opened Text
  import opened Update
  import opened QueryGenerator

  /** The statement that opens a Postgres transaction. */
  const PgTransactionOpen: string := "BEGIN;"
  /** The statement that closes a Postgres transaction. */
  const PgTransactionClose: string := "COMMIT;"

  /** `new PgQueryGenerator()`: a fresh shared generator holding the Postgres literals. */
  method NewPgQueryGenerator() returns (g: QueryGeneratorBase)
    ensures fresh(g)
    ensures g.transactionOpen == PgTransactionOpen && g.transactionClose == PgTransactionClose
  {
    g := new QueryGeneratorBase(PgTransactionOpen, PgTransactionClose);
  }

  /** Both literals end with `;`, as the base generator asks of them. */
  lemma PgLiteralsEndWithSemicolon()
    ensures EndsWith(PgTransactionOpen, ";") && EndsWith(PgTransactionClose, ";")
  {
  }

  /**
   * A transactional update from this generator is `BEGIN;` and a line
   * break, the statement lines, then `COMMIT;` and a line break.
   */
  lemma PgTransactionalUpdate(tableName: string, rows: seq<Row>, selectors: seq<string>, updates: seq<string>,
                              calculated: Option<CalculatedProperties>, prefix: string)
    requires UpdateQuery(PgTransactionOpen, PgTransactionClose, tableName, rows, selectors, updates, calculated, true, prefix).Ok?
    requires |rows| > 0
    ensures var q := UpdateQuery(PgTransactionOpen, PgTransactionClose, tableName, rows, selectors, updates, calculated, true, prefix).value.query;
      && StartsWith(q, "BEGIN;" + NewLine) && EndsWith(q, "COMMIT;" + NewLine)
      && q[|"BEGIN;" + NewLine|..|q| - |"COMMIT;" + NewLine|] == Concat(RowStatements(tableName, prefix, updates, selectors, |rows|))
  {
    UpdateEnvelope(PgTransactionOpen, PgTransactionClose, tableName, rows, selectors, updates, calculated, true, prefix);
  }
}
