/**
 * Concrete calls, checked against the outputs the library's own tests and
 * documentation describe.
 */
module Scenarios {
  import opened Common
  import opened Text
  import opened Resolution
  import opened Batching
  import opened InsertSpec
  import opened Insert
  import opened Delete

  /** The three rows of the sample table, without their identity column. */
  const SampleRows: seq<Row> := [
    map["TextCol" := Text("aaa"), "NumberCol" := Decimal(123, 2), "BoolCol" := Bool(true)],
    map["TextCol" := Text("bbb"), "NumberCol" := Decimal(456, 2), "BoolCol" := Bool(false)],
    map["TextCol" := Text("ccc"), "NumberCol" := Decimal(7, 0), "BoolCol" := Bool(true)]
  ]

  const SampleColumns: seq<string> := ["TextCol", "NumberCol", "BoolCol"]

  /** Three rows with a batch size of two give two statements. */
  lemma SampleInsertInTwoBatches()
    ensures var r := InsertStatements(Npgsql, "TestTable", SampleRows, SampleColumns, None, 2, "", Error);
      r.Ok? && |r.value| == 2
  {
    InsertSucceedsIffValuesFound(Npgsql, "TestTable", SampleRows, SampleColumns, None, 2, "", Error);
    InsertStatementsUnfold(Npgsql, "TestTable", SampleRows, SampleColumns, None, 2, "", Error);
    InsertBatchCount(InsertHeader("TestTable", SampleColumns), ConflictClause(Npgsql, Error) + ";", "",
                     InsertSources(SampleColumns, None), SampleRows, 2);
  }

  /** The decimal text of 0 and 1. */
  lemma SmallIndexes()
    ensures NatToString(0) == "0" && NatToString(1) == "1"
  {
    assert DigitChar(0) == '0';
    assert DigitChar(1) == '1';
  }

  /** The placeholders of two values with the prefix `d_`, joined. */
  lemma SampleDeletePlaceholders()
    ensures DeletePlaceholders("d_", "TextCol", 2) == ["@d_TextCol_0", "@d_TextCol_1"]
    ensures Join(",", DeletePlaceholders("d_", "TextCol", 2)) == "@d_TextCol_0,@d_TextCol_1"
  {
    SmallIndexes();
    assert ParamName("d_", "TextCol", 0) == "@d_TextCol_0";
    assert ParamName("d_", "TextCol", 1) == "@d_TextCol_1";
    var phs := DeletePlaceholders("d_", "TextCol", 2);
    assert phs[0] == "@d_TextCol_0" && phs[1] == "@d_TextCol_1";
    assert phs == ["@d_TextCol_0", "@d_TextCol_1"];
    assert phs[..1] == ["@d_TextCol_0"];
  }

  /** The delete of two text values with the prefix `d_`. */
  lemma SampleDelete()
    ensures DeleteStatement("TestTable", "TextCol", [Text("aaa"), Text("ccc")], "d_")
         == Batch("DELETE FROM " + "TestTable" + " WHERE " + "TextCol" + " IN (" + "@d_TextCol_0,@d_TextCol_1" + ");",
                  [("@d_TextCol_0", Text("aaa")), ("@d_TextCol_1", Text("ccc"))])
  {
    SampleDeletePlaceholders();
    var phs := DeletePlaceholders("d_", "TextCol", 2);
    var ps := DeleteParams("d_", "TextCol", [Text("aaa"), Text("ccc")]);
    assert ps[0] == (phs[0], Text("aaa")) && ps[1] == (phs[1], Text("ccc"));
  }

  /** The only row of a one-column insert resolves to its one value. */
  lemma SingleRowResolves()
    ensures ResolveRows([map["A" := Int(1)]], InsertSources(["A"], None)) == Ok([[Int(1)]])
  {
    var rows: seq<Row> := [map["A" := Int(1)]];
    var srcs := InsertSources(["A"], None);
    assert srcs[0] == Resolved("A", None);
    assert CellValue(srcs[0], rows[0]) == Ok(Int(1));
    ResolveRowStep(srcs, 0, rows[0]);
    assert srcs[..0] == [] && srcs[..1] == srcs;
    assert ResolveRow(srcs[..0], rows[0]) == Ok([]);
    assert [] + [Int(1)] == [Int(1)];
    assert ResolveRow(srcs, rows[0]) == Ok([Int(1)]);
    ResolveRowsStep(rows, 0, srcs);
    assert rows[..0] == [] && rows[..1] == rows;
    assert ResolveRows(rows[..0], srcs) == Ok([]);
    assert [] + [[Int(1)]] == [[Int(1)]];
  }

  /** The batch of that one row, at the default batch size. */
  lemma SingleRowBatch(tail: string)
    ensures Batches(InsertHeader("T", ["A"]), tail, "", ["A"], [[Int(1)]], 100)
         == [Batch("INSERT INTO " + "T" + " (" + "A" + ") VALUES " + "(@A_0)" + tail, [("@A_0", Int(1))])]
  {
    SmallIndexes();
    var vals := [[Int(1)]];
    var e := EffectiveBatchSize(100);
    assert BatchCount(1, e) == 1;
    assert BatchStart(0, e) == 0 && BatchStart(1, e) == 100;
    assert BatchRows(vals, 0, e) == vals;
    assert ParamName("", "A", 0) == "@A_0";
    assert Join(",", ["A"]) == "A";
    assert Placeholders("", ["A"], 0) == ["@A_0"];
    assert Join(",", ["@A_0"]) == "@A_0";
    assert RowTuple("", ["A"], 0) == "(@A_0)";
    assert RowsTuples("", ["A"], 1, 0)[0] == "(@A_0)";
    assert RowsTuples("", ["A"], 1, 0) == ["(@A_0)"];
    assert Join(",", ["(@A_0)"]) == "(@A_0)";
    var xss := seq(1, t requires 0 <= t < 1 => RowParams("", ["A"], vals[t], 0 + t));
    assert xss[0] == [("@A_0", Int(1))];
    assert xss[..0] == [];
    assert Flatten(xss) == Flatten(xss[..0]) + xss[0];
    assert RowsParams("", ["A"], vals, 0) == [("@A_0", Int(1))];
    assert BatchAt(InsertHeader("T", ["A"]), tail, "", ["A"], vals, e, 0)
        == Batch(InsertHeader("T", ["A"]) + "(@A_0)" + tail, [("@A_0", Int(1))]);
  }

  /** One row, one column, Postgres and `DoNothing`: the conflict clause sits between the tuple and `;`. */
  lemma SingleRowInsertText()
    ensures InsertStatements(Npgsql, "T", [map["A" := Int(1)]], ["A"], None, 100, "", DoNothing)
         == Ok([Batch("INSERT INTO " + "T" + " (" + "A" + ") VALUES " + "(@A_0)" + " ON CONFLICT DO NOTHING" + ";",
                      [("@A_0", Int(1))])])
  {
    SingleRowResolves();
    SingleRowBatch(" ON CONFLICT DO NOTHING" + ";");
    InsertStatementsUnfold(Npgsql, "T", [map["A" := Int(1)]], ["A"], None, 100, "", DoNothing);
    assert SourceNames(InsertSources(["A"], None)) == ["A"];
    assert ConflictClause(Npgsql, DoNothing) == " ON CONFLICT DO NOTHING";
    AppendAssoc("INSERT INTO " + "T" + " (" + "A" + ") VALUES " + "(@A_0)", " ON CONFLICT DO NOTHING", ";");
  }
}
