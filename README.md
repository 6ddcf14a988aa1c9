# DapperBulkQueries query generation, modelled in Dafny

DapperBulkQueries builds SQL text and named parameter bindings for bulk
operations. Nothing is run against a database. The input is:

- a list of row objects;
- an ordered list of column names;
- optional "calculated properties", which are per-column functions that
  override a row's own field;
- a batch size, a parameter prefix and a conflict policy.

This project models that query-generation core and proves what each generator
produces.

- **Rows** are `map<string, Value>`. The map stands in for reflection over a
  row object's public properties. Decimals are opaque values.
- **Calculated properties** are a sequence of `(name, Row -> Computation)`
  pairs with distinct keys. This is a dictionary enumerated in insertion
  order. A `Computation` either returns a value or throws, because a
  calculated property is arbitrary caller code.
- **Failures** are a `Result`. Four kinds are kept apart:
  - `InvalidArgument` is the `ArgumentException` of argument validation.
  - `UnknownColumn` is the `ArgumentException` of `GetPropertyValue`.
  - `MissingProperty` is the `NullReferenceException` of a direct
    `GetProperty(..).GetValue(..)` read.
  - `PassThrough` is whatever a calculated property throws. The generators
    do not catch it, so it ends the call unchanged.

The modules follow the program:

- `Common`, `Text`: the vocabulary, and the `@{prefix}{column}_{index}`
  parameter names with their injectivity.
- `Resolution`: `GetPropertyValue`, direct field reads, and the resolution of
  whole rows. The first cell without a value, in row-major order, is the
  error.
- `Batching`, `InsertSpec`: the pure specification of a multi-row `INSERT`.
  Both insert generators share it. It covers:
  - the batch boundaries, with a batch size of 0 meaning one row per batch;
  - the tuples and placeholders of each batch;
  - the per-batch parameter sets.
- `InsertLoop`, `InsertBuilder`: the `StringBuilder` loop of the insert
  generators, as imperative methods proved equal to the specification. The
  loop appends, removes trailing separators, counts the batch, emits and
  resets.
- `Insert`: `QueryGeneratorBase.GenerateBulkInsert`, covering the header, the
  conflict clause and the value sources.
- `Delete`: `GenerateBulkDelete`.
- `Update`, `UpdateBuilder`: `GenerateBulkUpdate`.
  - The specification covers validation, the per-row statements, the
    transaction envelope and the parameters.
  - The builder methods model the SET loop, the two-character trim, the WHERE
    line and the selector reads.
- `QueryGenerator`: the class `QueryGeneratorBase`. It holds the two
  transaction literals and has the three generator methods.
- `NpgsqlQueryGenerators`: the older static Npgsql insert generator. Its
  calculated keys become extra columns. It has no prefix, no conflict clause
  and no `;`.
- `PgQueryGenerator`, `MsQueryGenerator`: the dialect constructors, modelled
  as factory methods that fix the literals.
- `Scenarios`: concrete calls in the style of the repository's tests.

The update validation in the source checks the selector list twice (see
Findings). The shared generator `QueryGeneratorBase.GenerateBulkUpdate`, and
every lemma about a whole update call, follow the validation as written
(`Update.ValidateUpdate`, `Update.UpdateQuery`). So an empty list of columns
to update is accepted, and `Update.EmptyUpdateListAccepted` shows the text it
produces. The validation as its messages describe it is kept apart as
`Update.ValidateUpdateIntended` and `Update.UpdateQueryIntended`, with its
property proved in `Update.IntendedUpdateRejectsNoColumns` and
`Update.AcceptedStatementsHaveSet`.

The doc comment of the execution layer says a batch size of 0 means "no
batching". The code compares `batchCount >= batchSize`, and that comparison
always holds when the batch size is 0. The model follows the code: one row
per batch (`Batching.ZeroBatchSizeOneRowPerBatch`).

## Model

| member | source | states |
|---|---|---|
| Common.OnConflict.Code | DapperBulkQueries.Common/OnConflict.cs:10-24 | the policy enum has two values: 0 is `Error` and only `Error`, and every code is below 2 (`Update` is not implemented) |
| Common.OnConflictCodes | DapperBulkQueries.Common/OnConflict.cs:15-19 | `Error` is 0 and `DoNothing` is 1 |
| Common.Keys | DapperBulkQueries.Npgsql/QueryGenerators.cs:18-19 | the keys of a calculated-property dictionary, one per entry, in enumeration order |
| Text.ParseNatToString | DapperBulkQueries.Common/QueryGeneratorBase.cs:57 | the decimal text of a row index reads back as that index |
| Text.NatToStringInjective | DapperBulkQueries.Common/QueryGeneratorBase.cs:57 | two different row indexes never print the same |
| Text.NameIndexOfParamName | DapperBulkQueries.Common/QueryGeneratorBase.cs:57 | the digits after the last `_` of `@{prefix}{column}_{i}` are the row index `i` |
| Text.ParamNameInjective | DapperBulkQueries.Common/QueryGeneratorBase.cs:57 | under one prefix, equal parameter names mean the same column and the same row index |
| Resolution.GetPropertyValue | DapperBulkQueries.Common/QueryGeneratorBase.cs:176-194 | fails with the unknown-column error exactly when the name is neither a calculated key nor a field of the row; any other failure is an exception thrown by that name's calculated property; an uncalculated name present in the row yields the row's field |
| Resolution.LookupAt | DapperBulkQueries.Common/QueryGeneratorBase.cs:182-183 | indexing the dictionary by the key of entry j applies entry j's function |
| Resolution.OverrideWins | DapperBulkQueries.Common/QueryGeneratorBase.cs:182-183 | a calculated property is used whenever its key is listed, even when the row has a field of that name: its value, or the exception it throws, passed on unchanged |
| Resolution.Invoke | DapperBulkQueries.Common/QueryGeneratorBase.cs:183 | calling a calculated property succeeds exactly when it returns, with its value; an exception it throws becomes the pass-through error with that exception |
| Resolution.FieldValue | DapperBulkQueries.Common/QueryGeneratorBase.cs:151 | a direct property read succeeds exactly when the row has the property, and fails with the missing-property error otherwise |
| Resolution.ResolveRowMeaning | DapperBulkQueries.Common/QueryGeneratorBase.cs:54-59 | a row resolves iff every cell has a value; then value j is cell j's value; otherwise the error is that of the first cell without a value |
| Resolution.ResolveRowsMeaning | DapperBulkQueries.Common/QueryGeneratorBase.cs:48-59 | the rows resolve iff every row does; then they are the rows' values in order; otherwise the error is that of the first failing row |
| Resolution.ResolveRowsIffAllCells | DapperBulkQueries.Common/QueryGeneratorBase.cs:48-59 | the rows resolve exactly when every cell of every row has a value |
| Resolution.ResolveRowsFirstMissingCell | DapperBulkQueries.Common/QueryGeneratorBase.cs:48-59 | a failure names the first cell, in row-major order, that has no value |
| Resolution.ResolveRowsErrorKind | DapperBulkQueries.Common/QueryGeneratorBase.cs:182-192 | resolving values never fails with an argument error; the error always belongs to one of the columns: its unknown name, its missing field, or what its calculated property throws |
| Resolution.ResolvedCell | DapperBulkQueries.Common/QueryGeneratorBase.cs:56-57 | value (i, j) of resolved rows is the value of cell j of row i |
| Batching.EffectiveBatchSize | DapperBulkQueries.Common/QueryGeneratorBase.cs:65 | a batch holds at least one row, even with a batch size of 0 |
| Batching.BatchExists | DapperBulkQueries.Common/QueryGeneratorBase.cs:63-79 | batch k exists exactly when its first row is a real row |
| Batching.BatchBounds | DapperBulkQueries.Common/QueryGeneratorBase.cs:63-79 | each batch is non-empty and at most e rows; every batch but the last holds exactly e rows and the next starts where it ends; the last ends at the last row |
| Batching.BatchesOrdered | DapperBulkQueries.Common/QueryGeneratorBase.cs:48-79 | earlier batches hold earlier rows |
| Batching.BatchStartIsProduct | DapperBulkQueries.Common/QueryGeneratorBase.cs:65-75 | batch k starts at row k times the batch size |
| Batching.BatchCountIsCeiling | DapperBulkQueries.Common/QueryGeneratorBase.cs:65-75 | n rows make ceil(n / e) batches |
| Batching.RowInBatch | DapperBulkQueries.Common/QueryGeneratorBase.cs:48-79 | row i lies in batch i / e and in no other |
| Batching.Placeholders | DapperBulkQueries.Common/QueryGeneratorBase.cs:58 | row i has one placeholder per column, `@{prefix}{column}_{i}` in column order |
| Batching.RowParams | DapperBulkQueries.Common/QueryGeneratorBase.cs:56-57 | row i binds one parameter per column: that column's placeholder and that cell's value, in column order |
| Batching.RowsTuples | DapperBulkQueries.Common/QueryGeneratorBase.cs:51-61 | a run of rows has one tuple per row, each indexed by the row's global position |
| Batching.BatchRows | DapperBulkQueries.Common/QueryGeneratorBase.cs:63-79 | batch k holds the rows from its start to its end: between 1 and e consecutive rows, all as wide as the input |
| Batching.MakeBatch | DapperBulkQueries.Common/QueryGeneratorBase.cs:50-72 | a batch of c rows binds c times the number of columns parameters |
| Batching.BatchAt | DapperBulkQueries.Common/QueryGeneratorBase.cs:63-79 | batch k binds at most e times the number of columns parameters |
| Batching.Batches | DapperBulkQueries.Common/QueryGeneratorBase.cs:48-82 | there are ceil(n / e) batches, and batch k is built from exactly its own rows |
| Batching.BatchesSnoc | DapperBulkQueries.Common/QueryGeneratorBase.cs:65-72 | closing a batch of 1 to e new rows at a batch boundary appends exactly that batch to the batches before it |
| Batching.RowsParamsSplit | DapperBulkQueries.Common/QueryGeneratorBase.cs:57 | the parameters of two runs of rows are those of the first followed by those of the second, the second indexed from where the first ends |
| Batching.BatchesCoverRowsInOrder | DapperBulkQueries.Common/QueryGeneratorBase.cs:72-78 | the parameter sets of all batches, concatenated, are the parameters of all rows in input order: each set holds only its own rows |
| Batching.RowParamsDistinct | DapperBulkQueries.Common/QueryGeneratorBase.cs:57 | with distinct columns, one row's parameter names are distinct |
| Batching.RowsParamsNamed | DapperBulkQueries.Common/QueryGeneratorBase.cs:57 | every parameter name of rows lo .. hi - 1 carries a row index in that range |
| Batching.RowsParamsDistinct | DapperBulkQueries.Common/QueryGeneratorBase.cs:57 | with distinct columns, no parameter name repeats in a run of rows |
| Batching.BatchParamNamesUnique | DapperBulkQueries.Common/QueryGeneratorBase.cs:57 | with distinct columns, names are distinct within each batch, and never shared by two batches |
| Batching.BatchesShareNoNames | DapperBulkQueries.Common/QueryGeneratorBase.cs:48-79 | for any column list, no name of one batch appears in another batch of the same call, because the index is the global row index |
| Batching.RowsParamsLength | DapperBulkQueries.Common/QueryGeneratorBase.cs:54-57 | a run of rows binds columns times rows parameters |
| Batching.RowsParamsAt | DapperBulkQueries.Common/QueryGeneratorBase.cs:54-57 | parameter t * width + j of a run is column j of its row t, named with the global index |
| Batching.RowAtInBatch | DapperBulkQueries.Common/QueryGeneratorBase.cs:63-79 | row i is row i % e of batch i / e |
| Batching.BatchesCellParameter | DapperBulkQueries.Common/QueryGeneratorBase.cs:56-57 | cell (i, j) is bound in batch i / e at position (i % e) * width + j, under its own name and with its own value |
| Batching.BatchCellAt | DapperBulkQueries.Common/QueryGeneratorBase.cs:56-57 | within batch k, the parameter of its row t and column j belongs to global row start + t |
| Batching.RowTupleEndsWithParen | DapperBulkQueries.Common/QueryGeneratorBase.cs:60-61 | every row tuple ends with `)`, even with no columns |
| Batching.BatchQueryText | DapperBulkQueries.Common/QueryGeneratorBase.cs:42-71 | batch k's text is the header, its rows' tuples joined by `,`, then the tail |
| Batching.BatchQueryShape | DapperBulkQueries.Common/QueryGeneratorBase.cs:42-71 | every batch text starts with the header and ends with `)` followed by the tail |
| Batching.ZeroBatchSizeOneRowPerBatch | DapperBulkQueries.Common/QueryGeneratorBase.cs:65 | with batch size 0 each row is a batch of its own |
| InsertSpec.InsertBatches | DapperBulkQueries.Common/QueryGeneratorBase.cs:48-80 | an insert succeeds exactly when every row resolves, and otherwise fails with the rows' first error |
| InsertSpec.InsertNoRows | DapperBulkQueries.Common/QueryGeneratorBase.cs:40-48 | no rows give an empty list of statements |
| InsertSpec.InsertSucceedsIffAllCellsResolve | DapperBulkQueries.Common/QueryGeneratorBase.cs:54-59 | an insert succeeds exactly when every cell has a value |
| InsertSpec.InsertFailsAtFirstMissingCell | DapperBulkQueries.Common/QueryGeneratorBase.cs:48-59 | a failed insert reports the first cell in row-major order without a value |
| InsertSpec.InsertBatchAt | DapperBulkQueries.Common/QueryGeneratorBase.cs:63-79 | batch k holds rows k*e up to (k+1)*e, or up to the last row for the last batch: its text and parameters are built from exactly those rows |
| InsertSpec.BatchesHoldRows | DapperBulkQueries.Common/QueryGeneratorBase.cs:63-79 | batch k of the split is built from rows k*e up to (k+1)*e, or up to the last row for the last batch |
| InsertSpec.InsertBatchCount | DapperBulkQueries.Common/QueryGeneratorBase.cs:63-79 | a successful insert of n rows returns ceil(n / e) statements |
| InsertSpec.InsertKeepsRowOrder | DapperBulkQueries.Common/QueryGeneratorBase.cs:48-78 | the batches' parameters, concatenated, are every row's parameters in input order |
| InsertSpec.InsertCellParameter | DapperBulkQueries.Common/QueryGeneratorBase.cs:56-57 | cell (i, j) is bound in batch i / e at position (i % e) * width + j, as `@{prefix}{column}_{i}` with the cell's value |
| InsertSpec.InsertBatchesValue | DapperBulkQueries.Common/QueryGeneratorBase.cs:48-80 | a successful insert returns the batches of the resolved rows |
| InsertSpec.InsertParamNamesUnique | DapperBulkQueries.Common/QueryGeneratorBase.cs:57 | with distinct columns, no name repeats within a batch or across the batches of one call |
| InsertSpec.InsertBatchesShareNoNames | DapperBulkQueries.Common/QueryGeneratorBase.cs:48-79 | for any column list, no parameter name is shared by two statements of one successful insert, because the index is the global row index |
| InsertLoop.CloseTuple | DapperBulkQueries.Common/QueryGeneratorBase.cs:60-61 | removing the last character of `(` + placeholders-with-commas and appending `),` gives the row's tuple and a comma |
| InsertLoop.TrimOpenBatch | DapperBulkQueries.Common/QueryGeneratorBase.cs:68 | removing the trailing comma of an open batch leaves the header and the tuples joined by `,` |
| InsertLoop.RowLoopStep | DapperBulkQueries.Common/QueryGeneratorBase.cs:63-79 | one row of the loop, closed or not, keeps the loop's invariant over rows, text and parameters |
| InsertLoop.RowLoopFail | DapperBulkQueries.Common/QueryGeneratorBase.cs:56 | a row without a value ends the call with that row's error, which is the insert's error |
| InsertLoop.RowLoopEnd | DapperBulkQueries.Common/QueryGeneratorBase.cs:80-82 | when the loop ends, the emitted list is the specified batches |
| InsertBuilder.AppendRow | DapperBulkQueries.Common/QueryGeneratorBase.cs:50-61 | the column loop resolves the row or stops at its first failing cell; on success it appends the row's tuple and comma and binds the row's parameters |
| InsertBuilder.BuildInsertBatches | DapperBulkQueries.Common/QueryGeneratorBase.cs:39-82 | the row loop, with its counter, trim, emit and reset, returns exactly the specified insert |
| Insert.ConflictClause | DapperBulkQueries.Common/QueryGeneratorBase.cs:69-70 | ` ON CONFLICT DO NOTHING` is added exactly for Npgsql with `DoNothing`, and nothing otherwise |
| Insert.InsertHeader | DapperBulkQueries.Common/QueryGeneratorBase.cs:42 | the header starts with `INSERT INTO {table} (` and ends with `) VALUES ` |
| Insert.InsertStatements | DapperBulkQueries.Common/QueryGeneratorBase.cs:28-83 | a successful insert returns ceil(n / e) statements; a failure is the unknown-column error of a listed column or an exception from a calculated property, never an argument error |
| Insert.InsertSources | DapperBulkQueries.Common/QueryGeneratorBase.cs:54-56 | each listed column's value goes through `GetPropertyValue` with the calculated properties |
| Insert.InsertSourceAt | DapperBulkQueries.Common/QueryGeneratorBase.cs:54-56 | column j's value comes from `GetPropertyValue` for column j |
| Insert.InsertStatementsUnfold | DapperBulkQueries.Common/QueryGeneratorBase.cs:42-71 | an insert is the shared batching with the table's header and the conflict clause plus `;` as tail |
| Insert.InsertStatementShape | DapperBulkQueries.Common/QueryGeneratorBase.cs:42-71 | every statement starts with `INSERT INTO {table} ({columns}) VALUES ` and ends with `;`, and it ends with ` ON CONFLICT DO NOTHING;` iff Npgsql and `DoNothing` |
| Insert.SqlServerIgnoresDoNothing | DapperBulkQueries.Common/QueryGeneratorBase.cs:69-71 | for SQL Server, `DoNothing` gives exactly the `Error` output |
| Insert.ErrorPolicyAddsNothing | DapperBulkQueries.Common/QueryGeneratorBase.cs:69-71 | with `Error`, the tail is `;` alone, whatever the engine |
| Insert.InsertSucceedsIffValuesFound | DapperBulkQueries.Common/QueryGeneratorBase.cs:54-59 | an insert succeeds exactly when `GetPropertyValue` finds every listed column of every row without an exception |
| Insert.InsertBindsPropertyValue | DapperBulkQueries.Common/QueryGeneratorBase.cs:56-57 | cell (i, j) is bound in batch i / e at position (i % e) * width + j to `GetPropertyValue(column j, row i)` under `@{prefix}{column}_{i}` |
| Insert.InsertBatchesBindsResolved | DapperBulkQueries.Common/QueryGeneratorBase.cs:54-57 | in any successful multi-row insert over `GetPropertyValue` columns, cell (i, j) is bound in batch i / e at (i % e) * width + j to that value |
| Delete.DeletePlaceholders | DapperBulkQueries.Common/QueryGeneratorBase.cs:100-101 | n placeholders, the x-th being `@{prefix}{column}_{x}` |
| Delete.DeleteQuery | DapperBulkQueries.Common/QueryGeneratorBase.cs:99-102 | the text starts with `DELETE FROM {table} WHERE {column} IN (` and ends with `);` |
| Delete.DeleteStatement | DapperBulkQueries.Common/QueryGeneratorBase.cs:86-106 | the statement has the delete text and binds exactly one parameter per selector value, the x-th to value x |
| Delete.DeleteParams | DapperBulkQueries.Common/QueryGeneratorBase.cs:94-96 | one parameter per selector value |
| Delete.DeleteBindsPlaceholders | DapperBulkQueries.Common/QueryGeneratorBase.cs:94-101 | the bound names are exactly the placeholders of the text, in order, and name x, whose index is x, is bound to value x |
| Delete.DeleteNamesDistinct | DapperBulkQueries.Common/QueryGeneratorBase.cs:96 | no parameter name repeats |
| Delete.DeleteNoValues | DapperBulkQueries.Common/QueryGeneratorBase.cs:99-102 | no selector values give `... IN ();` with no parameters |
| Delete.DeleteParamsSnoc | DapperBulkQueries.Common/QueryGeneratorBase.cs:95-96 | each loop step binds value x under placeholder x after the earlier ones |
| Update.ValidateUpdate | DapperBulkQueries.Common/QueryGeneratorBase.cs:119-124 | as written, an update is refused exactly when there is no selector or no table name, with the message of the first failed check; an empty list of columns to update passes |
| Update.ValidateUpdateIntended | DapperBulkQueries.Common/QueryGeneratorBase.cs:119-124 | the corrected validation, as the messages describe it: refused exactly when there is no selector, no column to update or no table name, with the message of the first failed check |
| Update.ValidationAgreesWithColumns | DapperBulkQueries.Common/QueryGeneratorBase.cs:119-124 | the two checks agree whenever there is a column to update |
| Update.SetClause | DapperBulkQueries.Common/QueryGeneratorBase.cs:136-147 | the SET part always starts with `UPDATE {table} SE`, and it has the whole `SET ` exactly when there is a column to update |
| Update.WhereClause | DapperBulkQueries.Common/QueryGeneratorBase.cs:148 | the WHERE part starts with ` WHERE ` and ends with `;` and a line break |
| Update.RowStatementShape | DapperBulkQueries.Common/QueryGeneratorBase.cs:136-148 | every row line starts with `UPDATE {table} SE` and ends with `;` and a line break, and has the whole `SET ` exactly when there is a column to update |
| Update.EqualsParams | DapperBulkQueries.Common/QueryGeneratorBase.cs:143 | one `{column} = @{prefix}{column}_{i}` per column, in order |
| Update.RowStatements | DapperBulkQueries.Common/QueryGeneratorBase.cs:134-154 | one statement line per row, row i's line indexed with i |
| Update.UpdateSources | DapperBulkQueries.Common/QueryGeneratorBase.cs:139-152 | each row reads its columns to update, then its selectors |
| Update.UpdateSourcesShape | DapperBulkQueries.Common/QueryGeneratorBase.cs:139-152 | SET values go through `GetPropertyValue`, selector values are read straight from the row, and the parameter columns are the updated columns then the selectors |
| Update.UpdateSourceAt | DapperBulkQueries.Common/QueryGeneratorBase.cs:139-152 | column c is an updated column through `GetPropertyValue` or, past them, a selector read directly |
| Update.UpdateRows | DapperBulkQueries.Common/QueryGeneratorBase.cs:125-161 | the rows of an accepted update bind rows times (updated columns + selectors) parameters, or fail with an error that is never an argument error |
| Update.UpdateBindingCount | DapperBulkQueries.Common/QueryGeneratorBase.cs:134-153 | resolved update rows all have one value per SET column and selector, and bind rows times that many parameters |
| Update.UpdateQuery | DapperBulkQueries.Common/QueryGeneratorBase.cs:108-162 | the update as written: a success had a selector and a table name, and binds rows times (updated columns + selectors) parameters |
| Update.UpdateQueryIntended | DapperBulkQueries.Common/QueryGeneratorBase.cs:119-124 | the update under the corrected validation: a success also had a column to update |
| Update.IntendedUpdateRejectsNoColumns | DapperBulkQueries.Common/QueryGeneratorBase.cs:119-124 | the corrected update refuses an empty list of columns to update with its own message (after the no-selector one), and otherwise is the update as written |
| Update.UpdateRejectsIff | DapperBulkQueries.Common/QueryGeneratorBase.cs:118-126 | as written, an update fails with an argument error iff there is no selector or no table name, with the no-selector message first; an empty list of columns to update is not refused, and a row without a value never gives an argument error |
| Update.UpdateNoRows | DapperBulkQueries.Common/QueryGeneratorBase.cs:119-126 | arguments that pass the validation as written, with no rows, give the empty text and no parameters |
| Update.UpdateAccepted | DapperBulkQueries.Common/QueryGeneratorBase.cs:118-126 | a successful update passed the validation as written, and its result is that of the rows |
| Update.UpdateSucceedsIffValuesFound | DapperBulkQueries.Common/QueryGeneratorBase.cs:139-153 | once the validation as written passes, an update succeeds exactly when `GetPropertyValue` finds every SET column without an exception and every row has every selector field |
| Update.UpdateCellsResolveIff | DapperBulkQueries.Common/QueryGeneratorBase.cs:139-153 | every cell of the update resolves exactly when every SET value is found without an exception and every selector field is present |
| Update.UpdateOkIffRowsResolve | DapperBulkQueries.Common/QueryGeneratorBase.cs:134-154 | once the validation as written passes, success is exactly the resolution of every row's SET and selector values |
| Update.TextEnvelope | DapperBulkQueries.Common/QueryGeneratorBase.cs:131-158 | with a transaction the text starts with the open literal and a newline, ends with the close literal and a newline, and holds the row lines in between; without one it is the row lines alone |
| Update.UpdateQueryText | DapperBulkQueries.Common/QueryGeneratorBase.cs:128-161 | a successful update of rows (under the validation as written) has the opener, the row lines and the closer as its text |
| Update.UpdateEnvelope | DapperBulkQueries.Common/QueryGeneratorBase.cs:131-158 | for any successful update under the validation as written, the transaction literals appear, around the concatenated row lines, exactly when a transaction is asked for |
| Update.UpdateParameters | DapperBulkQueries.Common/QueryGeneratorBase.cs:133-153 | a successful update (validation as written) binds, row by row, the SET values then the selector values |
| Update.RowCellParam | DapperBulkQueries.Common/QueryGeneratorBase.cs:139-153 | parameter c of row i is named after column c and row i, with the `GetPropertyValue` value for a SET column or the field for a selector |
| Update.RowSelectorParam | DapperBulkQueries.Common/QueryGeneratorBase.cs:149-152 | selector j of row i is bound to the row's own field, never a calculated property |
| Update.UpdateBindsSetValue | DapperBulkQueries.Common/QueryGeneratorBase.cs:141-142 | SET column j of row i is bound as `@{prefix}{column}_{i}` to `GetPropertyValue(column, row i)` |
| Update.UpdateBindsSelectorValue | DapperBulkQueries.Common/QueryGeneratorBase.cs:149-152 | selector j of row i is bound as `@{prefix}{selector}_{i}` to the row's field; the field must exist |
| Update.UpdateNamesUnique | DapperBulkQueries.Common/QueryGeneratorBase.cs:142-152 | for any successful update under the validation as written, when the columns to update and the selectors together name no column twice, no parameter name repeats |
| Update.AcceptedStatementsHaveSet | DapperBulkQueries.Common/QueryGeneratorBase.cs:136-147 | under the corrected validation every row line starts with `UPDATE {table} SET ` and a first assignment |
| Update.EmptyUpdateListAccepted | DapperBulkQueries.Common/QueryGeneratorBase.cs:121 | as written, an empty list of columns to update is accepted and yields `UPDATE TestTable SE WHERE Id = @Id_0;`, which has no SET |
| Update.ExampleStatement | DapperBulkQueries.Common/QueryGeneratorBase.cs:136-148 | the line of row 0 with no SET columns: the trim eats the `T ` of `SET ` |
| Update.ExampleWhere | DapperBulkQueries.Common/QueryGeneratorBase.cs:148 | the WHERE part of one selector, with `;` and the line break |
| UpdateBuilder.OpenSetStep | DapperBulkQueries.Common/QueryGeneratorBase.cs:143 | one SET assignment appends `{column} = {placeholder}, ` |
| UpdateBuilder.CloseSet | DapperBulkQueries.Common/QueryGeneratorBase.cs:136-147 | removing the last two characters after the assignments gives the SET part of the line |
| UpdateBuilder.OpenSetFull | DapperBulkQueries.Common/QueryGeneratorBase.cs:139-144 | the assignments written are the `, `-joined list plus a trailing `, ` |
| UpdateBuilder.AppendAssignments | DapperBulkQueries.Common/QueryGeneratorBase.cs:139-144 | the SET loop stops at the first value not found, or writes every assignment and binds every SET value |
| UpdateBuilder.AppendSetList | DapperBulkQueries.Common/QueryGeneratorBase.cs:136-147 | appends `UPDATE {table} SET `, the assignments and the trim: the line's SET part and its parameters, or the first error |
| UpdateBuilder.AppendSelectorValues | DapperBulkQueries.Common/QueryGeneratorBase.cs:149-153 | the selector loop binds each selector's field after the SET values, or fails at the first selector the row lacks |
| UpdateBuilder.AppendUpdateRow | DapperBulkQueries.Common/QueryGeneratorBase.cs:136-153 | one row: its line is appended and its parameters bound, or its first error is returned |
| UpdateBuilder.RowsLoopStep | DapperBulkQueries.Common/QueryGeneratorBase.cs:134-154 | one iteration of the row loop keeps the resolved prefix and its parameters in step |
| UpdateBuilder.AppendUpdateRows | DapperBulkQueries.Common/QueryGeneratorBase.cs:134-154 | the row loop appends every row's line and binds every row's parameters, or returns the rows' first error |
| UpdateBuilder.UpdateQueryFromRows | DapperBulkQueries.Common/QueryGeneratorBase.cs:128-161 | once the validation as written passes, the opener, the rows' lines and the closer are the specified update, an empty list of columns to update included |
| QueryGenerator.QueryGeneratorBase.constructor | DapperBulkQueries.Common/QueryGeneratorBase.cs:7-13 | the generator keeps the two transaction literals it is given |
| QueryGenerator.QueryGeneratorBase.GenerateBulkInsert | DapperBulkQueries.Common/QueryGeneratorBase.cs:28-83 | the generator's insert is exactly the specified insert statements |
| QueryGenerator.QueryGeneratorBase.GenerateBulkDelete | DapperBulkQueries.Common/QueryGeneratorBase.cs:86-106 | the generator's delete is exactly the specified statement and parameters |
| QueryGenerator.QueryGeneratorBase.GenerateBulkUpdate | DapperBulkQueries.Common/QueryGeneratorBase.cs:108-162 | the generator's update is exactly the specified update under the validation as written, for its own transaction literals |
| NpgsqlQueryGenerators.LegacyColumns | DapperBulkQueries.Npgsql/QueryGenerators.cs:18-19 | the column list is the property names, followed by every calculated key in order when there are calculated properties |
| NpgsqlQueryGenerators.LegacySources | DapperBulkQueries.Npgsql/QueryGenerators.cs:33-46 | one value source per column of the list |
| NpgsqlQueryGenerators.LegacySourceAt | DapperBulkQueries.Npgsql/QueryGenerators.cs:33-46 | a plain column is read straight from the row; a calculated column applies its function |
| NpgsqlQueryGenerators.LegacySourceNames | DapperBulkQueries.Npgsql/QueryGenerators.cs:18-46 | the placeholders follow the same column list as the header |
| NpgsqlQueryGenerators.LegacySourcesKinds | DapperBulkQueries.Npgsql/QueryGenerators.cs:33-46 | every legacy column is either read straight from the row or computed by a calculated property, never through `GetPropertyValue` |
| NpgsqlQueryGenerators.LegacyInsert | DapperBulkQueries.Npgsql/QueryGenerators.cs:8-66 | a successful call returns ceil(n / e) batches; a failure is a missing property or a calculated property's exception, never an argument or unknown-column error |
| NpgsqlQueryGenerators.GenerateBulkInsert | DapperBulkQueries.Npgsql/QueryGenerators.cs:8-66 | the static generator returns exactly the specified batches |
| NpgsqlQueryGenerators.LegacyNoItems | DapperBulkQueries.Npgsql/QueryGenerators.cs:17-27 | no items give an empty result list |
| NpgsqlQueryGenerators.LegacyCellValue | DapperBulkQueries.Npgsql/QueryGenerators.cs:33-46 | a plain cell is the direct read of the row's property; a calculated cell is the function's value, or what it throws |
| NpgsqlQueryGenerators.LegacySucceedsIffPropertiesPresent | DapperBulkQueries.Npgsql/QueryGenerators.cs:33-46 | the call succeeds exactly when every item has every plain property and no calculated property throws on any item |
| NpgsqlQueryGenerators.LegacyFailsAtMissingProperty | DapperBulkQueries.Npgsql/QueryGenerators.cs:33-46 | a failure is the missing-property error of a plain property some item lacks, or the exception a calculated property throws on some item |
| NpgsqlQueryGenerators.LegacyUnfold | DapperBulkQueries.Npgsql/QueryGenerators.cs:21-56 | the legacy insert is the shared batching with no prefix and an empty tail |
| NpgsqlQueryGenerators.LegacyCellParam | DapperBulkQueries.Npgsql/QueryGenerators.cs:33-46 | column c of item i is bound in batch i / e at (i % e) * width + c as `@{column}_{i}` with the cell's value |
| NpgsqlQueryGenerators.LegacyBindsPlainProperty | DapperBulkQueries.Npgsql/QueryGenerators.cs:33-38 | plain property j of item i is bound as `@{name}_{i}`, with no prefix, to the item's field |
| NpgsqlQueryGenerators.LegacyCalculatedCell | DapperBulkQueries.Npgsql/QueryGenerators.cs:40-46 | the column after the plain ones at offset j is calculated key j, and its cell is that function called on the row |
| NpgsqlQueryGenerators.LegacyBindsCalculatedProperty | DapperBulkQueries.Npgsql/QueryGenerators.cs:40-46 | in a successful call calculated entry j returned a value on item i, and that value is bound after the plain properties as `@{key}_{i}` |
| NpgsqlQueryGenerators.LegacyStatementShape | DapperBulkQueries.Npgsql/QueryGenerators.cs:21-56 | every batch starts with the header and ends with `)`: no `;` and no conflict clause |
| NpgsqlQueryGenerators.LegacyBatchCount | DapperBulkQueries.Npgsql/QueryGenerators.cs:50-62 | n items give ceil(n / e) batches |
| NpgsqlQueryGenerators.LegacyBatchAt | DapperBulkQueries.Npgsql/QueryGenerators.cs:50-62 | batch k holds items k*e up to (k+1)*e, or up to the last item for the last batch, and only their parameters |
| PgQueryGenerator.NewPgQueryGenerator | DapperBulkQueries.Npgsql/PgQueryGenerator.cs:5-8 | the Postgres generator opens with `BEGIN;` and closes with `COMMIT;` |
| PgQueryGenerator.PgLiteralsEndWithSemicolon | DapperBulkQueries.Npgsql/PgQueryGenerator.cs:6-7 | both Postgres literals end with `;` |
| PgQueryGenerator.PgTransactionalUpdate | DapperBulkQueries.Npgsql/PgQueryGenerator.cs:5-8 | a successful Postgres transactional update (validation as written) is `BEGIN;`, a newline, the row lines, `COMMIT;` and a newline |
| MsQueryGenerator.NewMsQueryGenerator | DapperBulkQueries.SqlServer/MsQueryGenerator.cs:5-7 | the SQL Server generator opens with `BEGIN TRANSACTION;` and closes with `COMMIT;` |
| MsQueryGenerator.MsLiterals | DapperBulkQueries.SqlServer/MsQueryGenerator.cs:6-7 | both literals end with `;`; the close literal is Postgres's and the open literal is not |
| MsQueryGenerator.MsTransactionalUpdate | DapperBulkQueries.SqlServer/MsQueryGenerator.cs:5-7 | a successful SQL Server transactional update (validation as written) is `BEGIN TRANSACTION;`, a newline, the row lines, `COMMIT;` and a newline |
| MsQueryGenerator.PlainUpdateSameForBothGenerators | DapperBulkQueries.Common/QueryGeneratorBase.cs:131-158 | without a transaction neither literal is written: a successful update's text is the row lines alone, so both generators produce the same update |
| MsQueryGenerator.InsertAndDeleteIgnoreGenerator | DapperBulkQueries.Common/QueryGeneratorBase.cs:28-106 | for the same arguments (engine, table, rows, columns, calculated properties, batch size, prefix, conflict policy, selector column and values), insert and delete give the same output from either generator: neither reads the transaction literals |
| Scenarios.SampleInsertInTwoBatches | DapperBulkQueries.Tests/QueryGeneratorTests.cs:8-21 | three sample rows with batch size 2 give two statements |
| Scenarios.SmallIndexes | DapperBulkQueries.Common/QueryGeneratorBase.cs:57 | indexes 0 and 1 print as `0` and `1` |
| Scenarios.SampleDeletePlaceholders | DapperBulkQueries.Tests/SqlServerTests.cs:251-256 | two values under prefix `d_` give `@d_TextCol_0,@d_TextCol_1` |
| Scenarios.SampleDelete | DapperBulkQueries.Tests/SqlServerTests.cs:251-256 | deleting "aaa" and "ccc" by `TextCol` gives the `IN (@d_TextCol_0,@d_TextCol_1);` statement bound to those values |
| Scenarios.SingleRowResolves | DapperBulkQueries.Common/QueryGeneratorBase.cs:56 | a one-column row resolves to its field |
| Scenarios.SingleRowBatch | DapperBulkQueries.Common/QueryGeneratorBase.cs:42-72 | one row gives one batch: header, `(@A_0)`, tail, bound to the row's value |
| Scenarios.SingleRowInsertText | DapperBulkQueries.Common/QueryGeneratorBase.cs:42-71 | an Npgsql `DoNothing` insert of one row is `INSERT INTO T (A) VALUES (@A_0) ON CONFLICT DO NOTHING;` |

## Left out

- Execution: the extension methods that run the generated text over a
  connection are I/O and are not part of this model. This includes a
  delete generator they call on the static class, which is not part of this
  model either.
- Dapper's `DynamicParameters`: a parameter set is the sequence of appends
  made. Dapper's own handling is not modelled: stripping `@`, and a name
  added twice (a column listed twice, or both updated and a selector).
- Update.UpdateNamesUnique: stated only for updates where the columns to
  update and the selectors together name no column twice, because a
  repeated column binds the same name twice within a row.
- Batching.BatchParamNamesUnique, InsertSpec.InsertParamNamesUnique: their
  within-batch half needs distinct columns for the same reason; their
  across-batches half holds for any columns and is stated on its own in
  `Batching.BatchesShareNoNames` and `InsertSpec.InsertBatchesShareNoNames`.
- Reflection: a row is a map from property names to values. A missing field
  read directly is the `MissingProperty` error. The two exception types are
  kept apart, but their messages are not.
- Exceptions thrown by calculated properties: their .NET type and contents
  are one string carried by the `PassThrough` error. Which exception it is
  and how .NET unwinds are not modelled.
- Null arguments: `null` lists, a `null` row and a `null` table name are not
  modelled. `string.IsNullOrEmpty` becomes a test for the empty string.
- Integer widths: `batchSize` is an unbounded `nat` rather than a `uint`.
  Row indexes and the `int` batch counter are unbounded too, so more than
  2^31 rows are not modelled.
- `Environment.NewLine` is the constant `"\n"`.
- Decimal values are opaque. No decimal arithmetic or formatting is modelled.
- The legacy generator's two column loops (plain, then calculated) are
  modelled as one loop over a list of value sources: plain properties first,
  then calculated entries in key order. Both the appends and their order are
  the same.
- The conflict clause and `;` form the "tail" argument of the shared
  batching loop. The legacy generator passes an empty tail.
- `TransactionOpen`/`TransactionClose` have protected setters. No code in
  the source reassigns them, so they are `const` fields of the class.
- The dialect subclasses are factory methods that build a
  `QueryGeneratorBase` with their literals. Virtual dispatch is not
  modelled, because neither subclass overrides anything.
- The `dbType` argument of delete and update is accepted and unused, as in
  the source. The unused `debug` and `result` locals of update are left out.
- Scenarios.SampleDelete, Scenarios.SingleRowBatch, Scenarios.SingleRowInsertText: these state the expected texts as concatenations of their pieces rather than as one literal.
- Scenarios.SampleInsertInTwoBatches: it keeps the test's batch-count assertion. The test calls the insert without a `dbType` argument; here the call passes Npgsql.

## Findings

| source | as written | input that shows it | evidently intended | confidence | as-written member | corrected member |
|---|---|---|---|---|---|---|
| DapperBulkQueries.Common/QueryGeneratorBase.cs:121 | the second argument check tests `selectorColumnNames.Count < 1` again, so an empty `columnNamesToUpdate` is accepted | table `TestTable`, selectors `["Id"]`, no columns to update, one row with `Id = 1`, no transaction: the text is `UPDATE TestTable SE WHERE Id = @Id_0;`, which is not valid SQL | reject an empty `columnNamesToUpdate` with "GenerateBulkUpdate received no properties to update" | high; not executed | Update.EmptyUpdateListAccepted | Update.IntendedUpdateRejectsNoColumns |
