/**
 * Value resolution: where the value bound for one (row, column) cell comes
 * from, and how a whole row and a whole list of rows resolve, failing at the
 * first cell (in row-major order) that has no value.
 */
module Resolution {
  import opened Common

  /** The function registered under `name` (keys are distinct, so the first match is the only one). */
  function Lookup(entries: seq<(string, RowFn)>, name: string): RowFn
    requires name in Keys(entries)
    decreases |entries|
  {
    if entries[0].0 == name then entries[0].1
    else
      assert name in Keys(entries[1..]) by {
        var j :| 0 <= j < |entries| && Keys(entries)[j] == name;
        assert Keys(entries[1..])[j - 1] == name;
      }
      Lookup(entries[1..], name)
  }

  /** In a dictionary, looking up the key of entry `j` gives entry `j`'s function. */
  lemma {:induction false} LookupAt(entries: seq<(string, RowFn)>, j: nat, row: Row)
    requires KeysDistinct(entries)
    requires j < |entries|
    ensures entries[j].0 in Keys(entries)
    ensures Lookup(entries, entries[j].0)(row) == entries[j].1(row)
    decreases j
  {
    assert Keys(entries)[j] == entries[j].0;
    if j > 0 {
      var rest := entries[1..];
      assert rest[j - 1] == entries[j];
      LookupAt(rest, j - 1, row);
    }
  }

  /** A calculated property is registered under `propertyName`. */
  predicate HasOverride(propertyName: string, calculatedProperties: Option<CalculatedProperties>)
  {
    calculatedProperties.Some? && propertyName in Keys(calculatedProperties.value)
  }

  /** Calling a calculated property: its value, or what it throws, passed on unchanged. */
  function Invoke(compute: RowFn, row: Row): (r: Result<Value>)
    ensures r.Ok? <==> compute(row).Returns?
    ensures r.Ok? ==> r.value == compute(row).value
    ensures r.Err? ==> r.error == PassThrough(compute(row).exception)
  {
    match compute(row)
    case Returns(v) => Ok(v)
    case Throws(exception) => Err(PassThrough(exception))
  }

  /**
   * `GetPropertyValue`: a calculated property registered under the column's
   * name wins; otherwise the row's own property is read; if there is neither
   * the call fails with an argument error naming the column. Whatever the
   * calculated property throws is passed on.
   */
  function GetPropertyValue(propertyName: string, item: Row, calculatedProperties: Option<CalculatedProperties>): (r: Result<Value>)
    ensures r == Err(UnknownColumn(propertyName)) <==> !HasOverride(propertyName, calculatedProperties) && propertyName !in item
    ensures r.Err? ==> r.error == UnknownColumn(propertyName) || (HasOverride(propertyName, calculatedProperties) && r.error.PassThrough?)
    ensures !HasOverride(propertyName, calculatedProperties) && propertyName in item ==> r == Ok(item[propertyName])
  {
    if calculatedProperties.Some? && propertyName in Keys(calculatedProperties.value) then
      Invoke(Lookup(calculatedProperties.value, propertyName), item)
    else if propertyName in item then
      Ok(item[propertyName])
    else
      Err(UnknownColumn(propertyName))
  }

  /**
   * An override registered for a column is used even when the row has that
   * property too: the result is what the calculated property returns or
   * throws.
   */
  lemma OverrideWins(propertyName: string, item: Row, calculated: CalculatedProperties, j: nat)
    requires j < |calculated| && calculated[j].0 == propertyName
    ensures HasOverride(propertyName, Some(calculated))
    ensures calculated[j].1(item).Returns? ==> GetPropertyValue(propertyName, item, Some(calculated)) == Ok(calculated[j].1(item).value)
    ensures calculated[j].1(item).Throws? ==>
      GetPropertyValue(propertyName, item, Some(calculated)) == Err(PassThrough(calculated[j].1(item).exception))
  {
    LookupAt(calculated, j, item);
  }

  /** A direct property read (`GetType().GetProperty(name).GetValue(row)`), which fails when there is no such property. */
  function FieldValue(propertyName: string, item: Row): (r: Result<Value>)
    ensures r.Ok? <==> propertyName in item
    ensures r.Err? ==> r.error == MissingProperty(propertyName)
  {
    if propertyName in item then Ok(item[propertyName]) else Err(MissingProperty(propertyName))
  }

  /** Where a column's value comes from. */
  datatype Source =
    | Resolved(name: string, calculated: Option<CalculatedProperties>)  // through GetPropertyValue
    | Field(name: string)                                               // read straight from the row
    | Computed(name: string, compute: RowFn)                            // a calculated property applied as is

  function CellValue(src: Source, row: Row): Result<Value>
  {
    match src
    case Resolved(name, calculated) => GetPropertyValue(name, row, calculated)
    case Field(name) => FieldValue(name, row)
    case Computed(_, compute) => Invoke(compute, row)
  }

  /** The column names of a list of sources. */
  function SourceNames(srcs: seq<Source>): (names: seq<string>)
    ensures |names| == |srcs|
    ensures forall j :: 0 <= j < |srcs| ==> names[j] == srcs[j].name
  {
    seq(|srcs|, j requires 0 <= j < |srcs| => srcs[j].name)
  }

  /** The values of one row, column by column; the first column without a value aborts. */
  function ResolveRow(srcs: seq<Source>, row: Row): (r: Result<seq<Value>>)
    ensures r.Ok? ==> |r.value| == |srcs|
    decreases |srcs|
  {
    if |srcs| == 0 then Ok([])
    else
      match ResolveRow(srcs[..|srcs| - 1], row)
      case Err(e) => Err(e)
      case Ok(vs) =>
        match CellValue(srcs[|srcs| - 1], row)
        case Err(e) => Err(e)
        case Ok(v) => Ok(vs + [v])
  }

  /** The values of every row, row by row; the first failing row aborts. */
  function ResolveRows(rows: seq<Row>, srcs: seq<Source>): (r: Result<seq<seq<Value>>>)
    ensures r.Ok? ==> |r.value| == |rows| && Rectangular(r.value, |srcs|)
    decreases |rows|
  {
    if |rows| == 0 then Ok([])
    else
      match ResolveRows(rows[..|rows| - 1], srcs)
      case Err(e) => Err(e)
      case Ok(vss) =>
        match ResolveRow(srcs, rows[|rows| - 1])
        case Err(e) => Err(e)
        case Ok(vs) => Ok(vss + [vs])
  }

  /** Resolving one more column of a row (the step of a column loop). */
  lemma ResolveRowStep(srcs: seq<Source>, c: nat, row: Row)
    requires c < |srcs|
    ensures ResolveRow(srcs[..c + 1], row) ==
      match ResolveRow(srcs[..c], row)
      case Err(e) => Err(e)
      case Ok(vs) =>
        match CellValue(srcs[c], row)
        case Err(e) => Err(e)
        case Ok(v) => Ok(vs + [v])
  {
    assert srcs[..c + 1][..c] == srcs[..c];
  }

  /** Resolving one more row (the step of a row loop). */
  lemma ResolveRowsStep(rows: seq<Row>, i: nat, srcs: seq<Source>)
    requires i < |rows|
    ensures ResolveRows(rows[..i + 1], srcs) ==
      match ResolveRows(rows[..i], srcs)
      case Err(e) => Err(e)
      case Ok(vss) =>
        match ResolveRow(srcs, rows[i])
        case Err(e) => Err(e)
        case Ok(vs) => Ok(vss + [vs])
  {
    assert rows[..i + 1][..i] == rows[..i];
  }

  /** Once a prefix of the columns fails, the whole row fails with the same error. */
  lemma {:induction false} ResolveRowErrPrefix(srcs: seq<Source>, c: nat, row: Row)
    requires c <= |srcs|
    requires ResolveRow(srcs[..c], row).Err?
    ensures ResolveRow(srcs, row) == ResolveRow(srcs[..c], row)
    decreases |srcs|
  {
    if c < |srcs| {
      var init := srcs[..|srcs| - 1];
      assert init[..c] == srcs[..c];
      ResolveRowErrPrefix(init, c, row);
    } else {
      assert srcs[..c] == srcs;
    }
  }

  /** Once a prefix of the rows fails, the whole call fails with the same error. */
  lemma {:induction false} ResolveRowsErrPrefix(rows: seq<Row>, i: nat, srcs: seq<Source>)
    requires i <= |rows|
    requires ResolveRows(rows[..i], srcs).Err?
    ensures ResolveRows(rows, srcs) == ResolveRows(rows[..i], srcs)
    decreases |rows|
  {
    if i < |rows| {
      var init := rows[..|rows| - 1];
      assert init[..i] == rows[..i];
      ResolveRowsErrPrefix(init, i, srcs);
    } else {
      assert rows[..i] == rows;
    }
  }

  /**
   * A row resolves exactly when each of its cells does; its values are then
   * the cells' values in column order, and a failure reports the first
   * failing column.
   */
  lemma {:induction false} ResolveRowMeaning(srcs: seq<Source>, row: Row)
    ensures ResolveRow(srcs, row).Ok? <==> forall j :: 0 <= j < |srcs| ==> CellValue(srcs[j], row).Ok?
    ensures ResolveRow(srcs, row).Ok? ==>
      var vs := ResolveRow(srcs, row).value;
      |vs| == |srcs| && forall j :: 0 <= j < |srcs| ==> CellValue(srcs[j], row) == Ok(vs[j])
    ensures ResolveRow(srcs, row).Err? ==>
      exists j :: 0 <= j < |srcs| && CellValue(srcs[j], row) == Err(ResolveRow(srcs, row).error)
        && forall j' :: 0 <= j' < j ==> CellValue(srcs[j'], row).Ok?
    decreases |srcs|
  {
    if |srcs| > 0 {
      var init := srcs[..|srcs| - 1];
      ResolveRowMeaning(init, row);
      if ResolveRow(init, row).Err? {
        var j :| 0 <= j < |init| && CellValue(init[j], row) == Err(ResolveRow(init, row).error)
          && forall j' :: 0 <= j' < j ==> CellValue(init[j'], row).Ok?;
        assert CellValue(srcs[j], row) == Err(ResolveRow(srcs, row).error);
      }
    }
  }

  /**
   * A list of rows resolves exactly when every row does; the value rows are
   * then the rows' values in input order, and a failure reports the first
   * failing row.
   */
  lemma {:induction false} ResolveRowsMeaning(rows: seq<Row>, srcs: seq<Source>)
    ensures ResolveRows(rows, srcs).Ok? <==> forall i :: 0 <= i < |rows| ==> ResolveRow(srcs, rows[i]).Ok?
    ensures ResolveRows(rows, srcs).Ok? ==>
      var vss := ResolveRows(rows, srcs).value;
      |vss| == |rows| && forall i :: 0 <= i < |rows| ==> ResolveRow(srcs, rows[i]) == Ok(vss[i])
    ensures ResolveRows(rows, srcs).Err? ==>
      exists i :: 0 <= i < |rows| && ResolveRow(srcs, rows[i]) == Err(ResolveRows(rows, srcs).error)
        && forall i' :: 0 <= i' < i ==> ResolveRow(srcs, rows[i']).Ok?
    decreases |rows|
  {
    if |rows| > 0 {
      var init := rows[..|rows| - 1];
      ResolveRowsMeaning(init, srcs);
      if ResolveRows(init, srcs).Err? {
        var i :| 0 <= i < |init| && ResolveRow(srcs, init[i]) == Err(ResolveRows(init, srcs).error)
          && forall i' :: 0 <= i' < i ==> ResolveRow(srcs, init[i']).Ok?;
        assert ResolveRow(srcs, rows[i]) == Err(ResolveRows(rows, srcs).error);
      }
    }
  }

  /** Every cell of every row has a value. */
  ghost predicate AllCellsResolve(srcs: seq<Source>, rows: seq<Row>)
  {
    forall i, j :: 0 <= i < |rows| && 0 <= j < |srcs| ==> CellValue(srcs[j], rows[i]).Ok?
  }

  /** Cell (i, j) fails with `err`, and every cell before it in row-major order has a value. */
  ghost predicate FirstMissingCell(srcs: seq<Source>, rows: seq<Row>, i: int, j: int, err: GenerationError)
  {
    && 0 <= i < |rows| && 0 <= j < |srcs|
    && CellValue(srcs[j], rows[i]) == Err(err)
    && (forall i', j' :: 0 <= i' < i && 0 <= j' < |srcs| ==> CellValue(srcs[j'], rows[i']).Ok?)
    && (forall j' :: 0 <= j' < j ==> CellValue(srcs[j'], rows[i]).Ok?)
  }

  /** A list of rows resolves exactly when every cell has a value. */
  lemma ResolveRowsIffAllCells(rows: seq<Row>, srcs: seq<Source>)
    ensures ResolveRows(rows, srcs).Ok? <==> AllCellsResolve(srcs, rows)
  {
    ResolveRowsMeaning(rows, srcs);
    forall i | 0 <= i < |rows|
      ensures ResolveRow(srcs, rows[i]).Ok? <==> forall j :: 0 <= j < |srcs| ==> CellValue(srcs[j], rows[i]).Ok?
    {
      ResolveRowMeaning(srcs, rows[i]);
    }
  }

  /** A failed resolution reports the first cell, in row-major order, that has no value. */
  lemma ResolveRowsFirstMissingCell(rows: seq<Row>, srcs: seq<Source>)
    requires ResolveRows(rows, srcs).Err?
    ensures exists i, j :: FirstMissingCell(srcs, rows, i, j, ResolveRows(rows, srcs).error)
  {
    var err := ResolveRows(rows, srcs).error;
    ResolveRowsMeaning(rows, srcs);
    var i :| 0 <= i < |rows| && ResolveRow(srcs, rows[i]) == Err(err)
      && forall i' :: 0 <= i' < i ==> ResolveRow(srcs, rows[i']).Ok?;
    ResolveRowMeaning(srcs, rows[i]);
    var j :| 0 <= j < |srcs| && CellValue(srcs[j], rows[i]) == Err(err)
      && forall j' :: 0 <= j' < j ==> CellValue(srcs[j'], rows[i]).Ok?;
    forall i', j' | 0 <= i' < i && 0 <= j' < |srcs| ensures CellValue(srcs[j'], rows[i']).Ok? {
      ResolveRowMeaning(srcs, rows[i']);
    }
    assert FirstMissingCell(srcs, rows, i, j, err);
  }

  /** The errors a cell of source `src` can fail with. */
  ghost predicate ErrorOfSource(src: Source, err: GenerationError)
  {
    match src
    case Resolved(name, calculated) => err == UnknownColumn(name) || (HasOverride(name, calculated) && err.PassThrough?)
    case Field(name) => err == MissingProperty(name)
    case Computed(_, _) => err.PassThrough?
  }

  /**
   * Resolution never fails with an argument-validation error: its error is
   * one some column's source can raise, a column without a property or an
   * override, a missing property read directly, or an exception thrown by a
   * calculated property.
   */
  lemma ResolveRowsErrorKind(rows: seq<Row>, srcs: seq<Source>)
    requires ResolveRows(rows, srcs).Err?
    ensures !ResolveRows(rows, srcs).error.InvalidArgument?
    ensures exists j :: 0 <= j < |srcs| && ErrorOfSource(srcs[j], ResolveRows(rows, srcs).error)
  {
    ResolveRowsFirstMissingCell(rows, srcs);
    var i, j :| FirstMissingCell(srcs, rows, i, j, ResolveRows(rows, srcs).error);
    assert ErrorOfSource(srcs[j], ResolveRows(rows, srcs).error);
  }

  /** Every cell of a successful resolution holds that cell's value. */
  lemma ResolvedCell(rows: seq<Row>, srcs: seq<Source>, i: nat, j: nat)
    requires ResolveRows(rows, srcs).Ok?
    requires i < |rows| && j < |srcs|
    ensures |ResolveRows(rows, srcs).value| == |rows|
    ensures |ResolveRows(rows, srcs).value[i]| == |srcs|
    ensures CellValue(srcs[j], rows[i]) == Ok(ResolveRows(rows, srcs).value[i][j])
  {
    ResolveRowsMeaning(rows, srcs);
    ResolveRowMeaning(srcs, rows[i]);
  }
}
