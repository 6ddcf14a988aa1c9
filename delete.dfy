/**
 * `GenerateBulkDelete`: one `DELETE ... WHERE {column} IN (...)` statement
 * with one placeholder per selector value, `@{prefix}{column}_{x}` for the
 * x-th value.
 */
module Delete {
  import opened Common
  import opened Text

  /** The placeholders of n selector values, in order. */
  function DeletePlaceholders(prefix: string, column: string, n: nat): (phs: seq<string>)
    ensures |phs| == n
    ensures forall x :: 0 <= x < n ==> phs[x] == ParamName(prefix, column, x)
  {
    seq(n, x requires 0 <= x < n => ParamName(prefix, column, x))
  }

  /** `DELETE FROM {table} WHERE {column} IN (` + the placeholders joined by `,` + `);` */
  function DeleteQuery(tableName: string, column: string, prefix: string, n: nat): (q: string)
    ensures StartsWith(q, "DELETE FROM " + tableName + " WHERE " + column + " IN (") && EndsWith(q, ");")
  {
    var head := "DELETE FROM " + tableName + " WHERE " + column + " IN (";
    var q := head + Join(",", DeletePlaceholders(prefix, column, n)) + ");";
    assert q[..|head|] == head;
    assert q[|q| - 2..] == ");";
    q
  }

  /** The parameters of a delete: the x-th placeholder bound to the x-th selector value. */
  function DeleteParams(prefix: string, column: string, values: seq<Value>): (ps: seq<Param>)
    ensures |ps| == |values|
  {
    seq(|values|, x requires 0 <= x < |values| => (ParamName(prefix, column, x), values[x]))
  }

  /** The statement of one delete call; the database engine plays no part. */
  function DeleteStatement(tableName: string, column: string, values: seq<Value>, prefix: string): (b: Batch)
    ensures StartsWith(b.query, "DELETE FROM " + tableName + " WHERE " + column + " IN (") && EndsWith(b.query, ");")
    ensures |b.parameters| == |values|
    ensures forall x :: 0 <= x < |values| ==> b.parameters[x].1 == values[x]
  {
    Batch(DeleteQuery(tableName, column, prefix, |values|), DeleteParams(prefix, column, values))
  }

  /**
   * The names bound are exactly the placeholders of the statement, in the
   * same order; each is bound to the selector value its index names.
   */
  lemma DeleteBindsPlaceholders(tableName: string, column: string, values: seq<Value>, prefix: string)
    ensures var d := DeleteStatement(tableName, column, values, prefix);
      && Keys(d.parameters) == DeletePlaceholders(prefix, column, |values|)
      && forall x :: 0 <= x < |values| ==> NameIndex(d.parameters[x].0) == x && d.parameters[x].1 == values[x]
  {
    var ps := DeleteParams(prefix, column, values);
    assert Keys(ps) == DeletePlaceholders(prefix, column, |values|);
    forall x | 0 <= x < |values| ensures NameIndex(ps[x].0) == x {
      NameIndexOfParamName(prefix, column, x);
    }
  }

  /** No name is bound twice. */
  lemma DeleteNamesDistinct(tableName: string, column: string, values: seq<Value>, prefix: string)
    ensures DistinctNames(DeleteStatement(tableName, column, values, prefix).parameters)
  {
    var ps := DeleteParams(prefix, column, values);
    forall a, b | 0 <= a < b < |ps| ensures ps[a].0 != ps[b].0 {
      if ps[a].0 == ps[b].0 {
        ParamNameInjective(prefix, column, a, column, b);
      }
    }
  }

  /** An empty selector list is not special-cased: the statement is `... IN ();` and binds nothing. */
  lemma DeleteNoValues(tableName: string, column: string, prefix: string)
    ensures DeleteStatement(tableName, column, [], prefix)
         == Batch("DELETE FROM " + tableName + " WHERE " + column + " IN ();", [])
  {
    assert DeletePlaceholders(prefix, column, 0) == [];
  }

  /** The parameter loop adds the x-th selector value under the x-th placeholder. */
  lemma DeleteParamsSnoc(prefix: string, column: string, values: seq<Value>, x: nat)
    requires x < |values|
    ensures DeleteParams(prefix, column, values[..x]) + [(ParamName(prefix, column, x), values[x])]
         == DeleteParams(prefix, column, values[..x + 1])
  {
  }
}
