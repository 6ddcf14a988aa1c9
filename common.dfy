/**
 * Values, rows and the small vocabulary shared by every query generator:
 * the database-engine tag, the conflict policy, parameters and batches.
 */
module Common {

  /** A bound scalar value. Decimals are kept opaque (no arithmetic is done on them). */
  datatype Value =
    | Null
    | Int(i: int)
    | Text(s: string)
    | Bool(b: bool)
    | Decimal(mantissa: int, scale: nat)

  /** A row object: its public properties by name (stands in for reflection). */
  type Row = map<string, Value>

  /** What a calculated property does with a row: return a value, or throw. */
  datatype Computation = Returns(value: Value) | Throws(exception: string)

  /** A caller-supplied calculated property. */
  type RowFn = Row -> Computation

  /** No two entries of a dictionary share a key. */
  ghost predicate KeysDistinct(entries: seq<(string, RowFn)>)
  {
    forall a, b :: 0 <= a < b < |entries| ==> entries[a].0 != entries[b].0
  }

  /**
   * A `Dictionary<string, Func<T, object>>`: distinct keys, enumerated in
   * insertion order.
   */
  type CalculatedProperties = entries: seq<(string, RowFn)> | KeysDistinct(entries)

  /** The keys of a dictionary in enumeration order, or the names of a parameter list in order. */
  function Keys<V>(entries: seq<(string, V)>): (keys: seq<string>)
    ensures |keys| == |entries|
    ensures forall j :: 0 <= j < |entries| ==> keys[j] == entries[j].0
  {
    seq(|entries|, j requires 0 <= j < |entries| => entries[j].0)
  }

  datatype Option<+T> = None | Some(value: T)

  /** The exceptions a generation call can raise. */
  datatype GenerationError =
    | InvalidArgument(message: string)   // ArgumentException from argument validation
    | UnknownColumn(name: string)        // ArgumentException from GetPropertyValue
    | MissingProperty(name: string)      // NullReferenceException from a direct property read
    | PassThrough(exception: string)     // whatever a calculated property throws, propagated unchanged

  datatype Result<+T> = Ok(value: T) | Err(error: GenerationError)

  /** The database engine the caller targets. */
  datatype DatabaseType = Npgsql | SqlServer

  /** How an insert treats rows that collide with existing keys. */
  datatype OnConflict = Error | DoNothing
  {
    /** The enum's underlying integer value. */
    function Code(): (c: nat)
      ensures c < 2
      ensures c == 0 <==> this == Error
    {
      match this
      case Error => 0
      case DoNothing => 1
    }
  }

  /** `Environment.NewLine`, fixed to one platform's value. */
  const NewLine: string := "\n"

  /** One (name, value) pair added to a parameter set. */
  type Param = (string, Value)

  /** A generated statement and the parameters it binds, in the order they were added. */
  datatype Batch = Batch(query: string, parameters: seq<Param>)

  /** Every value row has one value per column. */
  ghost predicate Rectangular(vals: seq<seq<Value>>, width: nat)
  {
    forall i :: 0 <= i < |vals| ==> |vals[i]| == width
  }

  /** No name is added twice. */
  ghost predicate DistinctNames(ps: seq<Param>)
  {
    forall a, b :: 0 <= a < b < |ps| ==> ps[a].0 != ps[b].0
  }

  /** No name of `ps` is also a name of `qs`. */
  ghost predicate DisjointNames(ps: seq<Param>, qs: seq<Param>)
  {
    forall a, b :: 0 <= a < |ps| && 0 <= b < |qs| ==> ps[a].0 != qs[b].0
  }

  /** The default policy is `Error`, the enum's zero value. */
  lemma OnConflictCodes()
    ensures Error.Code() == 0 && DoNothing.Code() == 1
  {
  }
}
