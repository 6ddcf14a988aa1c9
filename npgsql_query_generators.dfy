/**
 * The older, static Npgsql insert generator. It shares the batching loop of
 * the shared generator but lays out its columns differently: the property
 * names read straight from each row, then every calculated property as an
 * extra column. Placeholders carry no prefix, and a statement ends with its
 * last tuple (no conflict clause, no `;`).
 */
module NpgsqlQueryGenerators {
  import opened Common
  import opened Text
  import opened Resolution
  import opened Batching
  import opened InsertSpec
  import opened InsertBuilder
  import opened Insert

  /** The column list: the property names, then the calculated keys when there is a dictionary. */
  function LegacyColumns(propertyNames: seq<string>, calculated: Option<CalculatedProperties>): (cols: seq<string>)
    ensures calculated.None? ==> cols == propertyNames
    ensures calculated.Some? ==> |cols| == |propertyNames| + |calculated.value|
    ensures cols[..|propertyNames|] == propertyNames
    ensures calculated.Some? ==> forall j :: 0 <= j < |calculated.value| ==> cols[|propertyNames| + j] == calculated.value[j].0
  {
    match calculated
    case None => propertyNames
    case Some(c) => propertyNames + Keys(c)
  }

  /**
   * Where each column's value comes from: a direct property read for every
   * property name, then each calculated property applied to the row.
   */
  function LegacySources(propertyNames: seq<string>, calculated: Option<CalculatedProperties>): (srcs: seq<Source>)
    ensures |srcs| == |LegacyColumns(propertyNames, calculated)|
  {
    var plain := seq(|propertyNames|, j requires 0 <= j < |propertyNames| => Field(propertyNames[j]));
    match calculated
    case None => plain
    case Some(c) => plain + seq(|c|, j requires 0 <= j < |c| => Computed(c[j].0, c[j].1))
  }

  /** Column j's source: a direct read of property j, or calculated property j - |propertyNames| as is. */
  lemma LegacySourceAt(propertyNames: seq<string>, calculated: Option<CalculatedProperties>, j: nat)
    requires j < |LegacyColumns(propertyNames, calculated)|
    ensures j < |propertyNames| ==> LegacySources(propertyNames, calculated)[j] == Field(propertyNames[j])
    ensures j >= |propertyNames| ==>
      (calculated.Some? && j - |propertyNames| < |calculated.value|
       && LegacySources(propertyNames, calculated)[j]
          == Computed(calculated.value[j - |propertyNames|].0, calculated.value[j - |propertyNames|].1))
  {
  }

  /** The sources name exactly the column list, in order. */
  lemma LegacySourceNames(propertyNames: seq<string>, calculated: Option<CalculatedProperties>)
    ensures SourceNames(LegacySources(propertyNames, calculated)) == LegacyColumns(propertyNames, calculated)
  {
    var srcs := LegacySources(propertyNames, calculated);
    var cols := LegacyColumns(propertyNames, calculated);
    forall j | 0 <= j < |srcs|
      ensures SourceNames(srcs)[j] == cols[j]
    {
      LegacySourceAt(propertyNames, calculated, j);
      if j >= |propertyNames| {
        assert cols[|propertyNames| + (j - |propertyNames|)] == calculated.value[j - |propertyNames|].0;
      }
    }
  }

  /**
   * What one call produces: the batches of its rows, with an empty prefix and
   * an empty tail. It never fails with an argument error, only with a missing
   * property or with what a calculated property throws.
   */
  function LegacyInsert(tableName: string, items: seq<Row>, propertyNames: seq<string>,
                        calculated: Option<CalculatedProperties>, batchSize: nat): (r: Result<seq<Batch>>)
    ensures r.Ok? ==> |r.value| == BatchCount(|items|, EffectiveBatchSize(batchSize))
    ensures r.Err? ==> r.error.MissingProperty? || r.error.PassThrough?
  {
    var srcs := LegacySources(propertyNames, calculated);
    var r := InsertBatches(InsertHeader(tableName, LegacyColumns(propertyNames, calculated)), "", "",
                           srcs, items, batchSize);
    if r.Err? then
      ResolveRowsErrorKind(items, srcs);
      LegacySourcesKinds(propertyNames, calculated);
      r
    else
      r
  }

  /** A legacy column is read either straight from the row or through a calculated property. */
  lemma LegacySourcesKinds(propertyNames: seq<string>, calculated: Option<CalculatedProperties>)
    ensures forall s :: s in LegacySources(propertyNames, calculated) ==> s.Field? || s.Computed?
  {
    var srcs := LegacySources(propertyNames, calculated);
    forall s | s in srcs
      ensures s.Field? || s.Computed?
    {
      var j :| 0 <= j < |srcs| && srcs[j] == s;
      LegacySourceAt(propertyNames, calculated, j);
    }
  }

  /**
   * The static generator: the column list and the statement header, then
   * the shared row loop with no prefix and nothing after the last tuple.
   */
  method GenerateBulkInsert(tableName: string, items: seq<Row>, propertyNames: seq<string>,
                            calculated: Option<CalculatedProperties> := None, batchSize: nat := 100)
    returns (r: Result<seq<Batch>>)
    ensures r == LegacyInsert(tableName, items, propertyNames, calculated, batchSize)
  {
    var allColumnNames := if calculated.None? then propertyNames else propertyNames + Keys(calculated.value);
    assert allColumnNames == LegacyColumns(propertyNames, calculated);
    var sqlBase := "INSERT INTO " + tableName + " (" + Join(",", allColumnNames) + ") VALUES ";
    r := BuildInsertBatches(sqlBase, "", "", LegacySources(propertyNames, calculated), items, batchSize);
  }

  /** No items, no statement. */
  lemma LegacyNoItems(tableName: string, propertyNames: seq<string>, calculated: Option<CalculatedProperties>, batchSize: nat)
    ensures LegacyInsert(tableName, [], propertyNames, calculated, batchSize) == Ok([])
  {
    InsertNoRows(InsertHeader(tableName, LegacyColumns(propertyNames, calculated)), "", "",
                 LegacySources(propertyNames, calculated), batchSize);
  }

  /**
   * A plain column's cell has a value exactly when the row has the property;
   * a calculated column's cell is what its function returns or throws.
   */
  lemma LegacyCellValue(propertyNames: seq<string>, calculated: Option<CalculatedProperties>, row: Row, j: nat)
    requires j < |LegacySources(propertyNames, calculated)|
    ensures var cell := CellValue(LegacySources(propertyNames, calculated)[j], row);
      && (j < |propertyNames| ==> cell == FieldValue(propertyNames[j], row))
      && (j >= |propertyNames| ==> calculated.Some? && cell == Invoke(calculated.value[j - |propertyNames|].1, row))
  {
    LegacySourceAt(propertyNames, calculated, j);
  }

  /**
   * A call succeeds exactly when every item has every plain property and no
   * calculated property throws on any item.
   */
  lemma LegacySucceedsIffPropertiesPresent(tableName: string, items: seq<Row>, propertyNames: seq<string>,
                                           calculated: Option<CalculatedProperties>, batchSize: nat)
    ensures LegacyInsert(tableName, items, propertyNames, calculated, batchSize).Ok?
        <==> && (forall i, j :: 0 <= i < |items| && 0 <= j < |propertyNames| ==> propertyNames[j] in items[i])
             && (calculated.Some? ==>
                   forall i, j :: 0 <= i < |items| && 0 <= j < |calculated.value| ==> calculated.value[j].1(items[i]).Returns?)
  {
    var srcs := LegacySources(propertyNames, calculated);
    InsertSucceedsIffAllCellsResolve(InsertHeader(tableName, LegacyColumns(propertyNames, calculated)), "", "", srcs, items, batchSize);
    if AllCellsResolve(srcs, items) {
      LegacyPropertiesFromCells(items, propertyNames, calculated);
    } else {
      if forall i, j :: 0 <= i < |items| && 0 <= j < |propertyNames| ==> propertyNames[j] in items[i] {
        if calculated.Some? ==>
           forall i, j :: 0 <= i < |items| && 0 <= j < |calculated.value| ==> calculated.value[j].1(items[i]).Returns? {
          LegacyCellsFromProperties(items, propertyNames, calculated);
        }
      }
    }
  }

  lemma LegacyCellsFromProperties(items: seq<Row>, propertyNames: seq<string>, calculated: Option<CalculatedProperties>)
    requires forall i, j :: 0 <= i < |items| && 0 <= j < |propertyNames| ==> propertyNames[j] in items[i]
    requires calculated.Some? ==>
      forall i, j :: 0 <= i < |items| && 0 <= j < |calculated.value| ==> calculated.value[j].1(items[i]).Returns?
    ensures AllCellsResolve(LegacySources(propertyNames, calculated), items)
  {
    var srcs := LegacySources(propertyNames, calculated);
    forall i, j | 0 <= i < |items| && 0 <= j < |srcs|
      ensures CellValue(srcs[j], items[i]).Ok?
    {
      LegacyCellValue(propertyNames, calculated, items[i], j);
      if j >= |propertyNames| {
        assert calculated.value[j - |propertyNames|].1(items[i]).Returns?;
      }
    }
  }

  lemma LegacyPropertiesFromCells(items: seq<Row>, propertyNames: seq<string>, calculated: Option<CalculatedProperties>)
    requires AllCellsResolve(LegacySources(propertyNames, calculated), items)
    ensures forall i, j :: 0 <= i < |items| && 0 <= j < |propertyNames| ==> propertyNames[j] in items[i]
    ensures calculated.Some? ==>
      forall i, j :: 0 <= i < |items| && 0 <= j < |calculated.value| ==> calculated.value[j].1(items[i]).Returns?
  {
    var srcs := LegacySources(propertyNames, calculated);
    forall i, j | 0 <= i < |items| && 0 <= j < |propertyNames|
      ensures propertyNames[j] in items[i]
    {
      LegacyCellValue(propertyNames, calculated, items[i], j);
    }
    if calculated.Some? {
      forall i, k | 0 <= i < |items| && 0 <= k < |calculated.value|
        ensures calculated.value[k].1(items[i]).Returns?
      {
        LegacyCellValue(propertyNames, calculated, items[i], |propertyNames| + k);
        assert CellValue(srcs[|propertyNames| + k], items[i]).Ok?;
      }
    }
  }

  /**
   * A failed call reports the first (item, column) pair, in row-major order,
   * that has no value: a plain property the item lacks, as a missing
   * property, or a calculated property that throws, with what it throws.
   */
  lemma LegacyFailsAtMissingProperty(tableName: string, items: seq<Row>, propertyNames: seq<string>,
                                     calculated: Option<CalculatedProperties>, batchSize: nat)
    requires LegacyInsert(tableName, items, propertyNames, calculated, batchSize).Err?
    ensures var err := LegacyInsert(tableName, items, propertyNames, calculated, batchSize).error;
      || (exists i, j :: 0 <= i < |items| && 0 <= j < |propertyNames| && propertyNames[j] !in items[i]
                         && err == MissingProperty(propertyNames[j]))
      || (exists i, j :: calculated.Some? && 0 <= i < |items| && 0 <= j < |calculated.value|
                         && calculated.value[j].1(items[i]).Throws?
                         && err == PassThrough(calculated.value[j].1(items[i]).exception))
  {
    var header := InsertHeader(tableName, LegacyColumns(propertyNames, calculated));
    var srcs := LegacySources(propertyNames, calculated);
    var err := LegacyInsert(tableName, items, propertyNames, calculated, batchSize).error;
    InsertFailsAtFirstMissingCell(header, "", "", srcs, items, batchSize);
    var i, j :| FirstMissingCell(srcs, items, i, j, err);
    LegacyCellValue(propertyNames, calculated, items[i], j);
    if j >= |propertyNames| {
      var k := j - |propertyNames|;
      assert calculated.Some? && 0 <= i < |items| && 0 <= k < |calculated.value|
             && calculated.value[k].1(items[i]).Throws?
             && err == PassThrough(calculated.value[k].1(items[i]).exception);
    }
  }

  /** A successful call is the multi-row insert of its header and its sources. */
  lemma LegacyUnfold(tableName: string, items: seq<Row>, propertyNames: seq<string>,
                     calculated: Option<CalculatedProperties>, batchSize: nat)
    ensures LegacyInsert(tableName, items, propertyNames, calculated, batchSize)
         == InsertBatches(InsertHeader(tableName, LegacyColumns(propertyNames, calculated)), "", "",
                          LegacySources(propertyNames, calculated), items, batchSize)
  {
  }

  /** Cell (i, c) is bound in batch i / e as parameter (i % e) * width + c, under `@{column c}_{i}`. */
  lemma LegacyCellParam(tableName: string, items: seq<Row>, propertyNames: seq<string>,
                        calculated: Option<CalculatedProperties>, batchSize: nat, i: nat, c: nat)
    requires LegacyInsert(tableName, items, propertyNames, calculated, batchSize).Ok?
    requires i < |items| && c < |LegacyColumns(propertyNames, calculated)|
    ensures CellValue(LegacySources(propertyNames, calculated)[c], items[i]).Ok?
    ensures var e := EffectiveBatchSize(batchSize);
      ParamAt(LegacyInsert(tableName, items, propertyNames, calculated, batchSize).value,
              i / e, (i % e) * |LegacyColumns(propertyNames, calculated)| + c)
      == Some((ParamName("", LegacyColumns(propertyNames, calculated)[c], i),
               CellValue(LegacySources(propertyNames, calculated)[c], items[i]).value))
  {
    var header := InsertHeader(tableName, LegacyColumns(propertyNames, calculated));
    var srcs := LegacySources(propertyNames, calculated);
    var cols := LegacyColumns(propertyNames, calculated);
    var e := EffectiveBatchSize(batchSize);
    LegacyUnfold(tableName, items, propertyNames, calculated, batchSize);
    InsertCellParameter(header, "", "", srcs, items, batchSize, i, c);
    LegacySourceNames(propertyNames, calculated);
    assert srcs[c].name == SourceNames(srcs)[c];
    SameParam(InsertBatches(header, "", "", srcs, items, batchSize).value,
              LegacyInsert(tableName, items, propertyNames, calculated, batchSize).value,
              i / e, (i % e) * |srcs| + c, (i % e) * |cols| + c,
              ParamName("", srcs[c].name, i), ParamName("", cols[c], i),
              CellValue(srcs[c], items[i]), CellValue(srcs[c], items[i]));
  }

  /**
   * Plain property j of item i is read straight from the item and bound in
   * batch i / e as parameter (i % e) * width + j, under `@{name}_{i}`.
   */
  lemma LegacyBindsPlainProperty(tableName: string, items: seq<Row>, propertyNames: seq<string>,
                                 calculated: Option<CalculatedProperties>, batchSize: nat, i: nat, j: nat)
    requires LegacyInsert(tableName, items, propertyNames, calculated, batchSize).Ok?
    requires i < |items| && j < |propertyNames|
    ensures propertyNames[j] in items[i]
    ensures var e := EffectiveBatchSize(batchSize);
      ParamAt(LegacyInsert(tableName, items, propertyNames, calculated, batchSize).value,
              i / e, (i % e) * |LegacyColumns(propertyNames, calculated)| + j)
      == Some((ParamName("", propertyNames[j], i), items[i][propertyNames[j]]))
  {
    var cols := LegacyColumns(propertyNames, calculated);
    assert cols[j] == cols[..|propertyNames|][j];
    LegacyCellParam(tableName, items, propertyNames, calculated, batchSize, i, j);
    LegacyCellValue(propertyNames, calculated, items[i], j);
  }

  /**
   * Calculated property j of item i is its function applied to the item,
   * bound in batch i / e after the plain properties, under `@{key}_{i}`.
   */
  lemma LegacyBindsCalculatedProperty(tableName: string, items: seq<Row>, propertyNames: seq<string>,
                                      calculated: CalculatedProperties, batchSize: nat, i: nat, j: nat)
    requires LegacyInsert(tableName, items, propertyNames, Some(calculated), batchSize).Ok?
    requires i < |items| && j < |calculated|
    ensures calculated[j].1(items[i]).Returns?
    ensures var e := EffectiveBatchSize(batchSize);
      ParamAt(LegacyInsert(tableName, items, propertyNames, Some(calculated), batchSize).value,
              i / e, (i % e) * |LegacyColumns(propertyNames, Some(calculated))| + (|propertyNames| + j))
      == Some((ParamName("", calculated[j].0, i), calculated[j].1(items[i]).value))
  {
    var cols := LegacyColumns(propertyNames, Some(calculated));
    var srcs := LegacySources(propertyNames, Some(calculated));
    var e := EffectiveBatchSize(batchSize);
    var c := |propertyNames| + j;
    LegacyCellParam(tableName, items, propertyNames, Some(calculated), batchSize, i, c);
    LegacyCalculatedCell(propertyNames, calculated, items[i], j);
    SameParam(LegacyInsert(tableName, items, propertyNames, Some(calculated), batchSize).value,
              LegacyInsert(tableName, items, propertyNames, Some(calculated), batchSize).value,
              i / e, (i % e) * |cols| + c, (i % e) * |cols| + (|propertyNames| + j),
              ParamName("", cols[c], i), ParamName("", calculated[j].0, i),
              CellValue(srcs[c], items[i]), Ok(calculated[j].1(items[i]).value));
  }

  /** The column after the plain ones at offset j is calculated property j, and its cell is that function's value. */
  lemma LegacyCalculatedCell(propertyNames: seq<string>, calculated: CalculatedProperties, row: Row, j: nat)
    requires j < |calculated|
    ensures |LegacyColumns(propertyNames, Some(calculated))| == |propertyNames| + |calculated|
    ensures LegacyColumns(propertyNames, Some(calculated))[|propertyNames| + j] == calculated[j].0
    ensures CellValue(LegacySources(propertyNames, Some(calculated))[|propertyNames| + j], row) == Invoke(calculated[j].1, row)
  {
    LegacySourceAt(propertyNames, Some(calculated), |propertyNames| + j);
  }

  /**
   * Every statement starts with the header and ends with the closing
   * parenthesis of its last tuple: nothing follows it.
   */
  lemma LegacyStatementShape(tableName: string, items: seq<Row>, propertyNames: seq<string>,
                             calculated: Option<CalculatedProperties>, batchSize: nat, k: nat)
    requires LegacyInsert(tableName, items, propertyNames, calculated, batchSize).Ok?
    requires k < |LegacyInsert(tableName, items, propertyNames, calculated, batchSize).value|
    ensures var q := LegacyInsert(tableName, items, propertyNames, calculated, batchSize).value[k].query;
      var header := InsertHeader(tableName, LegacyColumns(propertyNames, calculated));
      && StartsWith(q, header)
      && |q| > |header| && q[|q| - 1] == ')'
  {
    var header := InsertHeader(tableName, LegacyColumns(propertyNames, calculated));
    var srcs := LegacySources(propertyNames, calculated);
    LegacyUnfold(tableName, items, propertyNames, calculated, batchSize);
    InsertBatchesValue(header, "", "", srcs, items, batchSize);
    BatchQueryShape(header, "", "", SourceNames(srcs), ResolveRows(items, srcs).value, batchSize, k);
    NoTailShape(LegacyInsert(tableName, items, propertyNames, calculated, batchSize).value[k].query, header, "");
  }

  /** A statement whose tail is empty ends with the closing parenthesis itself. */
  lemma NoTailShape(q: string, header: string, tail: string)
    requires tail == ""
    requires |q| >= |header| + 1 + |tail| && q[..|header|] == header && q[|q| - |tail| - 1] == ')'
    ensures StartsWith(q, header) && |q| > |header| && q[|q| - 1] == ')'
  {
  }

  /** n items give ceil(n / e) statements, e being the effective batch size. */
  lemma LegacyBatchCount(tableName: string, items: seq<Row>, propertyNames: seq<string>,
                         calculated: Option<CalculatedProperties>, batchSize: nat)
    requires LegacyInsert(tableName, items, propertyNames, calculated, batchSize).Ok?
    ensures var e := EffectiveBatchSize(batchSize);
      |LegacyInsert(tableName, items, propertyNames, calculated, batchSize).value| == (|items| + e - 1) / e
  {
    LegacyUnfold(tableName, items, propertyNames, calculated, batchSize);
    InsertBatchCount(InsertHeader(tableName, LegacyColumns(propertyNames, calculated)), "", "",
                     LegacySources(propertyNames, calculated), items, batchSize);
  }

  /**
   * Statement k holds items [k * e, k * e + e), or the rest for the last
   * one, and binds those items' values only: a fresh parameter set is
   * started after every statement.
   */
  lemma LegacyBatchAt(tableName: string, items: seq<Row>, propertyNames: seq<string>,
                      calculated: Option<CalculatedProperties>, batchSize: nat, k: nat)
    requires LegacyInsert(tableName, items, propertyNames, calculated, batchSize).Ok?
    requires k < |LegacyInsert(tableName, items, propertyNames, calculated, batchSize).value|
    ensures var e := EffectiveBatchSize(batchSize);
      var bs := LegacyInsert(tableName, items, propertyNames, calculated, batchSize).value;
      var srcs := LegacySources(propertyNames, calculated);
      ResolveRows(items, srcs).Ok?
      && BatchHoldsRows(bs, k, InsertHeader(tableName, LegacyColumns(propertyNames, calculated)), "", "",
                        LegacyColumns(propertyNames, calculated), ResolveRows(items, srcs).value,
                        k * e, if k + 1 < |bs| then k * e + e else |items|)
  {
    var header := InsertHeader(tableName, LegacyColumns(propertyNames, calculated));
    var srcs := LegacySources(propertyNames, calculated);
    LegacyUnfold(tableName, items, propertyNames, calculated, batchSize);
    LegacySourceNames(propertyNames, calculated);
    InsertBatchAt(header, "", "", srcs, items, batchSize, k);
  }
}
