/**
 * How a multi-row INSERT splits its rows into batches, and what one batch
 * looks like: a fixed header, one value tuple per row, a fixed tail; and the
 * parameters of its rows, named with the global row index.
 *
 * A batch closes when its row count reaches the batch size or at the last
 * row. The row counter is at least 1 whenever it is compared, so a batch
 * size of 0 closes after every row: the effective batch size is then 1.
 */
module Batching {
  import opened Common
  import opened Text

  /* --- Arithmetic of batch boundaries --- */

  /** The number of rows a batch may hold: `batchSize`, or 1 when it is 0. */
  function EffectiveBatchSize(batchSize: nat): (e: nat)
    ensures e >= 1
  {
    if batchSize == 0 then 1 else batchSize
  }

  /** The first row of batch k: k * e, counted up batch by batch. */
  function BatchStart(k: nat, e: nat): nat
  {
    if k == 0 then 0 else BatchStart(k - 1, e) + e
  }

  /** The number of batches for n rows: one per e rows, the last one possibly short. */
  function BatchCount(n: nat, e: nat): nat
    requires e >= 1
    decreases n
  {
    if n == 0 then 0 else if n <= e then 1 else 1 + BatchCount(n - e, e)
  }

  /** One past the last row of batch k. */
  function BatchEnd(k: nat, n: nat, e: nat): nat
  {
    if BatchStart(k + 1, e) <= n then BatchStart(k + 1, e) else n
  }

  /** Batch starts grow by e from batch to batch. */
  lemma {:induction false} BatchStartMono(j: nat, k: nat, e: nat)
    requires j < k
    ensures BatchStart(j + 1, e) <= BatchStart(k, e)
    decreases k
  {
    if j + 1 < k {
      BatchStartMono(j, k - 1, e);
    }
  }

  /** Batch k exists exactly when it starts before the last row. */
  lemma {:induction false} BatchExists(k: nat, n: nat, e: nat)
    requires e >= 1
    ensures k < BatchCount(n, e) <==> BatchStart(k, e) < n
    decreases n
  {
    if k > 0 {
      assert BatchStart(k, e) >= e by {
        if k > 1 { BatchStartMono(0, k - 1, e); }
      }
      if n > e {
        BatchExists(k - 1, n - e, e);
      }
    }
  }

  /** Starting at a whole number of batches, k batches end exactly there; adding 1..e rows adds one batch. */
  lemma BatchCountAt(k: nat, c: nat, e: nat)
    requires e >= 1 && c <= e
    ensures BatchCount(BatchStart(k, e) + c, e) == if c == 0 then k else k + 1
  {
    var n := BatchStart(k, e) + c;
    var q := BatchCount(n, e);
    var want := if c == 0 then k else k + 1;
    BatchExists(want, n, e);
    if want > 0 {
      BatchExists(want - 1, n, e);
    }
    if q < want {
      BatchExists(q, n, e);
      BatchStartMono(q, want, e);
    }
  }

  /**
   * Batch k covers rows [BatchStart(k), BatchEnd(k)): at least one row and at
   * most e; every batch but the last is full, and the last ends at row n.
   */
  lemma BatchBounds(k: nat, n: nat, e: nat)
    requires e >= 1 && k < BatchCount(n, e)
    ensures BatchStart(k, e) < BatchEnd(k, n, e) <= n
    ensures BatchEnd(k, n, e) - BatchStart(k, e) <= e
    ensures k + 1 < BatchCount(n, e) ==> BatchEnd(k, n, e) == BatchStart(k + 1, e) == BatchStart(k, e) + e
    ensures k + 1 == BatchCount(n, e) ==> BatchEnd(k, n, e) == n
  {
    BatchExists(k, n, e);
    BatchExists(k + 1, n, e);
  }

  /** Batches of one call cover disjoint row ranges, in order. */
  lemma BatchesOrdered(j: nat, k: nat, n: nat, e: nat)
    requires e >= 1 && j < k < BatchCount(n, e)
    ensures BatchEnd(j, n, e) <= BatchStart(k, e)
  {
    BatchBounds(j, n, e);
    BatchStartMono(j, k, e);
  }

  /* --- The same quantities in closed form --- */

  lemma MulMono(a: nat, b: nat, e: nat)
    requires a <= b
    ensures a * e <= b * e
  {
  }

  lemma DivIsQuotient(a: nat, d: nat, q: nat)
    requires d >= 1 && q * d <= a < q * d + d
    ensures a / d == q
  {
    var r := a / d;
    assert a == r * d + a % d;
    if r < q {
      MulMono(r + 1, q, d);
    } else if r > q {
      MulMono(q + 1, r, d);
    }
  }

  /** Batch k starts at row k * e. */
  lemma {:induction false} BatchStartIsProduct(k: nat, e: nat)
    ensures BatchStart(k, e) == k * e
    decreases k
  {
    if k > 0 {
      BatchStartIsProduct(k - 1, e);
      assert k * e == (k - 1) * e + e;
    }
  }

  /** The batch count is ceil(n / e). */
  lemma {:induction false} BatchCountIsCeiling(n: nat, e: nat)
    requires e >= 1
    ensures BatchCount(n, e) == (n + e - 1) / e
    decreases n
  {
    if n == 0 {
      DivIsQuotient(e - 1, e, 0);
    } else if n <= e {
      DivIsQuotient(n + e - 1, e, 1);
    } else {
      BatchCountIsCeiling(n - e, e);
      var q := (n - 1) / e;
      assert n - 1 == q * e + (n - 1) % e;
      assert (q + 1) * e == q * e + e;
      DivIsQuotient(n + e - 1, e, q + 1);
    }
  }

  /** Row i (of n) lies in batch i / e, and in no other batch. */
  lemma RowInBatch(i: nat, n: nat, e: nat)
    requires e >= 1 && i < n
    ensures i / e < BatchCount(n, e)
    ensures BatchStart(i / e, e) <= i < BatchEnd(i / e, n, e)
    ensures forall k :: 0 <= k < BatchCount(n, e) && BatchStart(k, e) <= i < BatchEnd(k, n, e) ==> k == i / e
  {
    var k := i / e;
    assert i == k * e + i % e;
    BatchStartIsProduct(k, e);
    BatchStartIsProduct(k + 1, e);
    assert (k + 1) * e == k * e + e;
    BatchExists(k, n, e);
    forall k' | 0 <= k' < BatchCount(n, e) && BatchStart(k', e) <= i < BatchEnd(k', n, e)
      ensures k' == k
    {
      BatchStartIsProduct(k', e);
      BatchStartIsProduct(k' + 1, e);
      assert (k' + 1) * e == k' * e + e;
      DivIsQuotient(i, e, k');
    }
  }

  /* --- Rows as text and parameters --- */

  /** No column is listed twice. */
  ghost predicate DistinctColumns(names: seq<string>)
  {
    forall a, b :: 0 <= a < b < |names| ==> names[a] != names[b]
  }

  /** The placeholders of row i, one per column. */
  function Placeholders(prefix: string, names: seq<string>, i: nat): (phs: seq<string>)
    ensures |phs| == |names|
    ensures forall j :: 0 <= j < |names| ==> phs[j] == ParamName(prefix, names[j], i)
  {
    seq(|names|, j requires 0 <= j < |names| => ParamName(prefix, names[j], i))
  }

  /**
   * The value tuple of row i. With no columns the builder trims the opening
   * parenthesis it has just written, so only the closing one remains.
   */
  function RowTuple(prefix: string, names: seq<string>, i: nat): string
  {
    if |names| == 0 then ")" else "(" + Join(",", Placeholders(prefix, names, i)) + ")"
  }

  /** The parameters row i adds, in column order. */
  function RowParams(prefix: string, names: seq<string>, vals: seq<Value>, i: nat): (ps: seq<Param>)
    requires |vals| == |names|
    ensures |ps| == |names|
    ensures forall j :: 0 <= j < |names| ==> ps[j] == (ParamName(prefix, names[j], i), vals[j])
  {
    seq(|names|, j requires 0 <= j < |names| => (ParamName(prefix, names[j], i), vals[j]))
  }

  /** The tuples of consecutive rows lo, lo + 1, ... */
  function RowsTuples(prefix: string, names: seq<string>, count: nat, lo: nat): (ts: seq<string>)
    ensures |ts| == count
    ensures forall t :: 0 <= t < count ==> ts[t] == RowTuple(prefix, names, lo + t)
  {
    seq(count, t requires 0 <= t < count => RowTuple(prefix, names, lo + t))
  }

  /** The parameters of consecutive rows lo, lo + 1, ..., row after row. */
  function RowsParams(prefix: string, names: seq<string>, chunk: seq<seq<Value>>, lo: nat): seq<Param>
    requires Rectangular(chunk, |names|)
  {
    Flatten(seq(|chunk|, t requires 0 <= t < |chunk| => RowParams(prefix, names, chunk[t], lo + t)))
  }

  /** One batch: header, the rows' tuples separated by commas, tail; and the rows' parameters. */
  function MakeBatch(header: string, tail: string, prefix: string, names: seq<string>, chunk: seq<seq<Value>>, lo: nat): (b: Batch)
    requires Rectangular(chunk, |names|)
    ensures |b.parameters| == |chunk| * |names|
  {
    RowsParamsLength(prefix, names, chunk, lo);
    Batch(header + Join(",", RowsTuples(prefix, names, |chunk|, lo)) + tail, RowsParams(prefix, names, chunk, lo))
  }

  /** The value rows of batch k. */
  function BatchRows(vals: seq<seq<Value>>, k: nat, e: nat): (chunk: seq<seq<Value>>)
    requires e >= 1 && k < BatchCount(|vals|, e)
    ensures BatchStart(k, e) < BatchEnd(k, |vals|, e) <= |vals|
    ensures chunk == vals[BatchStart(k, e)..BatchEnd(k, |vals|, e)]
    ensures 1 <= |chunk| <= e
    ensures forall w :: Rectangular(vals, w) ==> Rectangular(chunk, w)
  {
    BatchBounds(k, |vals|, e);
    vals[BatchStart(k, e)..BatchEnd(k, |vals|, e)]
  }

  /** Batch k of a multi-row insert. */
  function BatchAt(header: string, tail: string, prefix: string, names: seq<string>, vals: seq<seq<Value>>, e: nat, k: nat): (b: Batch)
    requires e >= 1 && k < BatchCount(|vals|, e)
    requires Rectangular(vals, |names|)
    ensures |b.parameters| <= e * |names|
  {
    var chunk := BatchRows(vals, k, e);
    MulMono(|chunk|, e, |names|);
    MakeBatch(header, tail, prefix, names, chunk, BatchStart(k, e))
  }

  /** Every batch of a multi-row insert, in order. */
  function Batches(header: string, tail: string, prefix: string, names: seq<string>, vals: seq<seq<Value>>, batchSize: nat): (bs: seq<Batch>)
    requires Rectangular(vals, |names|)
    ensures |bs| == BatchCount(|vals|, EffectiveBatchSize(batchSize))
    ensures forall k :: 0 <= k < |bs| ==> bs[k] == BatchAt(header, tail, prefix, names, vals, EffectiveBatchSize(batchSize), k)
  {
    var e := EffectiveBatchSize(batchSize);
    seq(BatchCount(|vals|, e), k requires 0 <= k < BatchCount(|vals|, e) => BatchAt(header, tail, prefix, names, vals, e, k))
  }

  /* --- Properties of the batch split --- */

  /** Rows that fit in a prefix are the same rows after appending more. */
  lemma SliceOfPrefix(vals: seq<seq<Value>>, more: seq<seq<Value>>, lo: nat, hi: nat)
    requires lo <= hi <= |vals|
    ensures (vals + more)[lo..hi] == vals[lo..hi]
  {
  }

  /** Appending rows to whole batches keeps those batches unchanged. */
  lemma BatchAtPrefix(header: string, tail: string, prefix: string, names: seq<string>,
                      vals: seq<seq<Value>>, chunk: seq<seq<Value>>, e: nat, j: nat, k: nat)
    requires e >= 1 && Rectangular(vals, |names|) && Rectangular(vals + chunk, |names|)
    requires |vals| == BatchStart(k, e) && j < k
    ensures j < BatchCount(|vals|, e) && j < BatchCount(|vals + chunk|, e)
    ensures BatchAt(header, tail, prefix, names, vals + chunk, e, j) == BatchAt(header, tail, prefix, names, vals, e, j)
  {
    BatchCountAt(k, 0, e);
    BatchExists(j, |vals + chunk|, e);
    BatchStartMono(j, k, e);
    BatchBounds(j, |vals|, e);
    BatchBounds(j, |vals + chunk|, e);
    SliceOfPrefix(vals, chunk, BatchStart(j, e), BatchEnd(j, |vals|, e));
  }

  /** The batch right after whole batches holds exactly the appended rows. */
  lemma BatchAtLast(header: string, tail: string, prefix: string, names: seq<string>,
                    vals: seq<seq<Value>>, chunk: seq<seq<Value>>, e: nat, k: nat)
    requires e >= 1 && Rectangular(chunk, |names|) && Rectangular(vals + chunk, |names|)
    requires |vals| == BatchStart(k, e) && 1 <= |chunk| <= e
    ensures k < BatchCount(|vals + chunk|, e)
    ensures BatchAt(header, tail, prefix, names, vals + chunk, e, k) == MakeBatch(header, tail, prefix, names, chunk, |vals|)
  {
    var all := vals + chunk;
    BatchCountAt(k, |chunk|, e);
    BatchBounds(k, |all|, e);
    assert BatchEnd(k, |all|, e) == |all|;
    assert all[|vals|..|all|] == chunk;
    assert BatchRows(all, k, e) == chunk;
  }

  lemma RectangularAppend(a: seq<seq<Value>>, b: seq<seq<Value>>, w: nat)
    requires Rectangular(a, w) && Rectangular(b, w)
    ensures Rectangular(a + b, w)
  {
    forall i | 0 <= i < |a + b| ensures |(a + b)[i]| == w {
      if i >= |a| { assert (a + b)[i] == b[i - |a|]; }
    }
  }

  /**
   * Closing a batch after a prefix of whole batches: the batches of the
   * longer input are the old ones followed by one batch of the new rows.
   */
  lemma BatchesSnoc(header: string, tail: string, prefix: string, names: seq<string>,
                    vals: seq<seq<Value>>, chunk: seq<seq<Value>>, batchSize: nat, k: nat)
    requires Rectangular(vals, |names|) && Rectangular(chunk, |names|)
    requires |vals| == BatchStart(k, EffectiveBatchSize(batchSize))
    requires 1 <= |chunk| <= EffectiveBatchSize(batchSize)
    ensures Rectangular(vals + chunk, |names|)
    ensures Batches(header, tail, prefix, names, vals + chunk, batchSize)
         == Batches(header, tail, prefix, names, vals, batchSize) + [MakeBatch(header, tail, prefix, names, chunk, |vals|)]
  {
    var e := EffectiveBatchSize(batchSize);
    RectangularAppend(vals, chunk, |names|);
    BatchCountAt(k, 0, e);
    BatchCountAt(k, |chunk|, e);
    var lhs := Batches(header, tail, prefix, names, vals + chunk, batchSize);
    var before := Batches(header, tail, prefix, names, vals, batchSize);
    var last := MakeBatch(header, tail, prefix, names, chunk, |vals|);
    assert |lhs| == k + 1 && |before| == k;
    forall j | 0 <= j < k ensures lhs[j] == before[j] {
      BatchAtPrefix(header, tail, prefix, names, vals, chunk, e, j, k);
    }
    BatchAtLast(header, tail, prefix, names, vals, chunk, e, k);
    assert lhs[k] == last;
    SnocEq(lhs, before, last);
  }

  /** A sequence that agrees with `init` and then holds `x` is `init + [x]`. */
  lemma SnocEq<T>(s: seq<T>, init: seq<T>, x: T)
    requires |s| == |init| + 1 && s[|init|] == x
    requires forall j :: 0 <= j < |init| ==> s[j] == init[j]
    ensures s == init + [x]
  {
  }

  /** Splitting consecutive rows in two splits their parameters in two. */
  lemma RowsParamsSplit(prefix: string, names: seq<string>, a: seq<seq<Value>>, b: seq<seq<Value>>, lo: nat)
    requires Rectangular(a, |names|) && Rectangular(b, |names|)
    ensures Rectangular(a + b, |names|)
    ensures RowsParams(prefix, names, a + b, lo) == RowsParams(prefix, names, a, lo) + RowsParams(prefix, names, b, lo + |a|)
  {
    assert Rectangular(a + b, |names|) by {
      forall i | 0 <= i < |a + b| ensures |(a + b)[i]| == |names| {
        if i >= |a| { assert (a + b)[i] == b[i - |a|]; }
      }
    }
    var whole := seq(|a + b|, t requires 0 <= t < |a + b| => RowParams(prefix, names, (a + b)[t], lo + t));
    var left := seq(|a|, t requires 0 <= t < |a| => RowParams(prefix, names, a[t], lo + t));
    var right := seq(|b|, t requires 0 <= t < |b| => RowParams(prefix, names, b[t], lo + |a| + t));
    assert whole == left + right;
    FlattenAppend(left, right);
  }

  /** The parameters of a list of batches, batch after batch. */
  function BatchesParams(bs: seq<Batch>): seq<Param>
    decreases |bs|
  {
    if |bs| == 0 then [] else BatchesParams(bs[..|bs| - 1]) + bs[|bs| - 1].parameters
  }

  lemma BatchesParamsStep(bs: seq<Batch>, m: nat)
    requires m < |bs|
    ensures BatchesParams(bs[..m + 1]) == BatchesParams(bs[..m]) + bs[m].parameters
  {
    assert bs[..m + 1][..m] == bs[..m];
  }

  lemma RectangularSlice(vals: seq<seq<Value>>, lo: nat, hi: nat, w: nat)
    requires lo <= hi <= |vals| && Rectangular(vals, w)
    ensures Rectangular(vals[lo..hi], w)
  {
    forall t | 0 <= t < hi - lo ensures |vals[lo..hi][t]| == w {
      assert vals[lo..hi][t] == vals[lo + t];
    }
  }

  lemma RectangularPrefix(vals: seq<seq<Value>>, hi: nat, w: nat)
    requires hi <= |vals| && Rectangular(vals, w)
    ensures Rectangular(vals[..hi], w)
  {
    forall t | 0 <= t < hi ensures |vals[..hi][t]| == w {
      assert vals[..hi][t] == vals[t];
    }
  }

  /** The parameters of batch m are those of its slice of rows, numbered from the batch's first row. */
  lemma BatchAtParams(header: string, tail: string, prefix: string, names: seq<string>,
                      vals: seq<seq<Value>>, e: nat, m: nat, lo: nat, hi: nat)
    requires e >= 1 && Rectangular(vals, |names|) && m < BatchCount(|vals|, e)
    requires lo == BatchStart(m, e) && hi == BatchEnd(m, |vals|, e)
    ensures lo < hi <= |vals| && Rectangular(vals[lo..hi], |names|)
    ensures BatchAt(header, tail, prefix, names, vals, e, m).parameters == RowsParams(prefix, names, vals[lo..hi], lo)
  {
    var chunk := BatchRows(vals, m, e);
    assert chunk == vals[lo..hi];
  }

  /** The parameters of the first hi rows are those of the first lo rows followed by those of rows lo..hi. */
  lemma PrefixParamsSplit(prefix: string, names: seq<string>, vals: seq<seq<Value>>, lo: nat, hi: nat)
    requires lo <= hi <= |vals| && Rectangular(vals, |names|)
    ensures Rectangular(vals[..lo], |names|) && Rectangular(vals[lo..hi], |names|) && Rectangular(vals[..hi], |names|)
    ensures RowsParams(prefix, names, vals[..hi], 0)
         == RowsParams(prefix, names, vals[..lo], 0) + RowsParams(prefix, names, vals[lo..hi], lo)
  {
    RectangularPrefix(vals, lo, |names|);
    RectangularPrefix(vals, hi, |names|);
    RectangularSlice(vals, lo, hi, |names|);
    var a, b := vals[..lo], vals[lo..hi];
    assert vals[..hi] == a + b;
    RowsParamsSplit(prefix, names, a, b, 0);
  }

  /** The rows before batch m + 1 are those before batch m followed by batch m's rows. */
  lemma CoverStep(header: string, tail: string, prefix: string, names: seq<string>,
                  vals: seq<seq<Value>>, e: nat, m: nat, lo: nat)
    requires e >= 1 && Rectangular(vals, |names|) && m < BatchCount(|vals|, e)
    requires lo == BatchStart(m, e)
    ensures lo < BatchEnd(m, |vals|, e) <= |vals|
    ensures RowsParams(prefix, names, vals[..BatchEnd(m, |vals|, e)], 0)
         == RowsParams(prefix, names, vals[..lo], 0) + BatchAt(header, tail, prefix, names, vals, e, m).parameters
  {
    var hi := BatchEnd(m, |vals|, e);
    BatchAtParams(header, tail, prefix, names, vals, e, m, lo, hi);
    PrefixParamsSplit(prefix, names, vals, lo, hi);
  }

  /** No rows, no parameters. */
  lemma RowsParamsEmpty(prefix: string, names: seq<string>, lo: nat)
    ensures RowsParams(prefix, names, [], lo) == []
  {
  }

  /** One past the last row of the first m batches. */
  function CoveredRows(m: nat, n: nat, e: nat): nat
  {
    if m == 0 then 0 else BatchEnd(m - 1, n, e)
  }

  /** The rows covered by the batches before batch m are the rows before batch m's start. */
  lemma CoveredRowsAtStart(m: nat, n: nat, e: nat)
    requires e >= 1 && m < BatchCount(n, e)
    ensures CoveredRows(m, n, e) == BatchStart(m, e)
  {
    if m > 0 {
      BatchBounds(m - 1, n, e);
    }
  }

  /** The first m batches hold, in order, the parameters of the rows they cover. */
  ghost predicate PrefixCovered(header: string, tail: string, prefix: string, names: seq<string>,
                                vals: seq<seq<Value>>, batchSize: nat, m: nat)
    requires Rectangular(vals, |names|)
    requires m <= BatchCount(|vals|, EffectiveBatchSize(batchSize))
  {
    var hi := CoveredRows(m, |vals|, EffectiveBatchSize(batchSize));
    && hi <= |vals|
    && Rectangular(vals[..hi], |names|)
    && BatchesParams(Batches(header, tail, prefix, names, vals, batchSize)[..m]) == RowsParams(prefix, names, vals[..hi], 0)
  }

  lemma PrefixCoveredStep(header: string, tail: string, prefix: string, names: seq<string>,
                          vals: seq<seq<Value>>, batchSize: nat, m: nat)
    requires Rectangular(vals, |names|)
    requires m < BatchCount(|vals|, EffectiveBatchSize(batchSize))
    requires PrefixCovered(header, tail, prefix, names, vals, batchSize, m)
    ensures PrefixCovered(header, tail, prefix, names, vals, batchSize, m + 1)
  {
    var e := EffectiveBatchSize(batchSize);
    var bs := Batches(header, tail, prefix, names, vals, batchSize);
    var lo := CoveredRows(m, |vals|, e);
    var hi := CoveredRows(m + 1, |vals|, e);
    CoveredRowsAtStart(m, |vals|, e);
    CoverStep(header, tail, prefix, names, vals, e, m, lo);
    assert hi == BatchEnd(m, |vals|, e);
    BatchesParamsStep(bs, m);
    assert bs[m] == BatchAt(header, tail, prefix, names, vals, e, m);
    RectangularPrefix(vals, hi, |names|);
    assert BatchesParams(bs[..m + 1]) == RowsParams(prefix, names, vals[..hi], 0);
  }

  lemma {:induction false} BatchesPrefixCover(header: string, tail: string, prefix: string, names: seq<string>,
                                              vals: seq<seq<Value>>, batchSize: nat, m: nat)
    requires Rectangular(vals, |names|)
    requires m <= BatchCount(|vals|, EffectiveBatchSize(batchSize))
    ensures PrefixCovered(header, tail, prefix, names, vals, batchSize, m)
    decreases m
  {
    if m == 0 {
      var bs := Batches(header, tail, prefix, names, vals, batchSize);
      assert bs[..0] == [];
      assert vals[..0] == [];
      RowsParamsEmpty(prefix, names, 0);
    } else {
      BatchesPrefixCover(header, tail, prefix, names, vals, batchSize, m - 1);
      PrefixCoveredStep(header, tail, prefix, names, vals, batchSize, m - 1);
    }
  }

  /**
   * Rows keep their input order: the parameters of all batches, taken batch
   * after batch, are exactly the parameters of all rows, row after row.
   */
  lemma BatchesCoverRowsInOrder(header: string, tail: string, prefix: string, names: seq<string>,
                                vals: seq<seq<Value>>, batchSize: nat)
    requires Rectangular(vals, |names|)
    ensures BatchesParams(Batches(header, tail, prefix, names, vals, batchSize)) == RowsParams(prefix, names, vals, 0)
  {
    var e := EffectiveBatchSize(batchSize);
    var bs := Batches(header, tail, prefix, names, vals, batchSize);
    var q := |bs|;
    BatchesPrefixCover(header, tail, prefix, names, vals, batchSize, q);
    if q == 0 {
      BatchExists(0, |vals|, e);
    } else {
      BatchBounds(q - 1, |vals|, e);
    }
    assert CoveredRows(q, |vals|, e) == |vals|;
    assert vals[..|vals|] == vals;
    assert bs[..q] == bs;
  }

  /* --- Uniqueness of parameter names --- */

  /** Every name in `ps` carries the index of a row in [lo, hi). */
  ghost predicate NamedInRows(ps: seq<Param>, lo: nat, hi: nat)
  {
    forall a :: 0 <= a < |ps| ==> lo <= NameIndex(ps[a].0) < hi
  }

  /** Parameters of disjoint row ranges never share a name. */
  lemma DisjointRowRanges(ps: seq<Param>, qs: seq<Param>, lo1: nat, hi1: nat, lo2: nat, hi2: nat)
    requires NamedInRows(ps, lo1, hi1) && NamedInRows(qs, lo2, hi2)
    requires hi1 <= lo2
    ensures DisjointNames(ps, qs)
  {
  }

  /** The parameters of one row are named after that row. */
  lemma RowParamsNamed(prefix: string, names: seq<string>, vals: seq<Value>, i: nat)
    requires |vals| == |names|
    ensures NamedInRows(RowParams(prefix, names, vals, i), i, i + 1)
  {
    forall j | 0 <= j < |names| ensures NameIndex(ParamName(prefix, names[j], i)) == i {
      NameIndexOfParamName(prefix, names[j], i);
    }
  }

  /** The parameters of one row have distinct names when its columns are distinct. */
  lemma RowParamsDistinct(prefix: string, names: seq<string>, vals: seq<Value>, i: nat)
    requires |vals| == |names| && DistinctColumns(names)
    ensures DistinctNames(RowParams(prefix, names, vals, i))
  {
    var ps := RowParams(prefix, names, vals, i);
    forall a, b | 0 <= a < b < |ps| ensures ps[a].0 != ps[b].0 {
      if ps[a].0 == ps[b].0 {
        ParamNameInjective(prefix, names[a], i, names[b], i);
      }
    }
  }

  /** Joining two parameter lists with distinct, disjoint names keeps names distinct. */
  lemma DistinctAppend(ps: seq<Param>, qs: seq<Param>)
    requires DistinctNames(ps) && DistinctNames(qs) && DisjointNames(ps, qs)
    ensures DistinctNames(ps + qs)
  {
    var all := ps + qs;
    forall x, y | 0 <= x < y < |all| ensures all[x].0 != all[y].0 {
      if x >= |ps| {
        assert all[x] == qs[x - |ps|] && all[y] == qs[y - |ps|];
      } else if y >= |ps| {
        assert all[y] == qs[y - |ps|];
      }
    }
  }

  /** Joining the parameters of adjacent row ranges names the joined range. */
  lemma NamedAppend(ps: seq<Param>, qs: seq<Param>, lo: nat, mid: nat, hi: nat)
    requires NamedInRows(ps, lo, mid) && NamedInRows(qs, mid, hi) && lo <= mid <= hi
    ensures NamedInRows(ps + qs, lo, hi)
  {
    var all := ps + qs;
    forall x | 0 <= x < |all| ensures lo <= NameIndex(all[x].0) < hi {
      if x >= |ps| { assert all[x] == qs[x - |ps|]; }
    }
  }

  /** The parameters of the last of consecutive rows, split off. */
  lemma RowsParamsSnoc(prefix: string, names: seq<string>, chunk: seq<seq<Value>>, lo: nat)
    requires Rectangular(chunk, |names|) && |chunk| > 0
    ensures Rectangular(chunk[..|chunk| - 1], |names|)
    ensures RowsParams(prefix, names, chunk, lo)
         == RowsParams(prefix, names, chunk[..|chunk| - 1], lo) + RowParams(prefix, names, chunk[|chunk| - 1], lo + |chunk| - 1)
  {
    var init, last := chunk[..|chunk| - 1], chunk[|chunk| - 1];
    RectangularSlice(chunk, 0, |chunk| - 1, |names|);
    assert init == chunk[0..|chunk| - 1];
    assert chunk == init + [last];
    RowsParamsSplit(prefix, names, init, [last], lo);
    var lastParams := RowParams(prefix, names, last, lo + |init|);
    assert seq(1, t requires 0 <= t < 1 => RowParams(prefix, names, [last][t], lo + |init| + t)) == [lastParams];
    FlattenSnoc([], lastParams);
  }

  /** The parameters of consecutive rows are all named after one of those rows. */
  lemma {:induction false} RowsParamsNamed(prefix: string, names: seq<string>, chunk: seq<seq<Value>>, lo: nat)
    requires Rectangular(chunk, |names|)
    ensures NamedInRows(RowsParams(prefix, names, chunk, lo), lo, lo + |chunk|)
    decreases |chunk|
  {
    if |chunk| > 0 {
      var init, last, i := chunk[..|chunk| - 1], chunk[|chunk| - 1], lo + |chunk| - 1;
      RowsParamsSnoc(prefix, names, chunk, lo);
      RowsParamsNamed(prefix, names, init, lo);
      RowParamsNamed(prefix, names, last, i);
      NamedAppend(RowsParams(prefix, names, init, lo), RowParams(prefix, names, last, i), lo, i, lo + |chunk|);
    }
  }

  /**
   * Consecutive rows with distinct columns bind distinct names: the global
   * row index keeps rows apart.
   */
  lemma {:induction false} RowsParamsDistinct(prefix: string, names: seq<string>, chunk: seq<seq<Value>>, lo: nat)
    requires Rectangular(chunk, |names|) && DistinctColumns(names)
    ensures DistinctNames(RowsParams(prefix, names, chunk, lo))
    decreases |chunk|
  {
    if |chunk| > 0 {
      var init, last, i := chunk[..|chunk| - 1], chunk[|chunk| - 1], lo + |chunk| - 1;
      RowsParamsSnoc(prefix, names, chunk, lo);
      RowsParamsDistinct(prefix, names, init, lo);
      RowsParamsNamed(prefix, names, init, lo);
      RowParamsDistinct(prefix, names, last, i);
      RowParamsNamed(prefix, names, last, i);
      DistinctAfterRow(RowsParams(prefix, names, init, lo), RowParams(prefix, names, last, i), lo, i);
    }
  }

  /** Distinct names of rows [lo, i), then distinct names of row i: still distinct. */
  lemma DistinctAfterRow(ps: seq<Param>, qs: seq<Param>, lo: nat, i: nat)
    requires DistinctNames(ps) && NamedInRows(ps, lo, i)
    requires DistinctNames(qs) && NamedInRows(qs, i, i + 1)
    ensures DistinctNames(ps + qs)
  {
    DisjointRowRanges(ps, qs, lo, i, i, i + 1);
    DistinctAppend(ps, qs);
  }

  /**
   * With distinct columns, no parameter name repeats within a batch; no
   * name of one batch appears in another batch of the same call, which
   * holds for any columns (`BatchesShareNoNames`).
   */
  lemma BatchParamNamesUnique(header: string, tail: string, prefix: string, names: seq<string>,
                              vals: seq<seq<Value>>, batchSize: nat)
    requires Rectangular(vals, |names|) && DistinctColumns(names)
    ensures var bs := Batches(header, tail, prefix, names, vals, batchSize);
      && (forall k :: 0 <= k < |bs| ==> DistinctNames(bs[k].parameters))
      && (forall k1, k2 :: 0 <= k1 < k2 < |bs| ==> DisjointNames(bs[k1].parameters, bs[k2].parameters))
  {
    var e := EffectiveBatchSize(batchSize);
    var bs := Batches(header, tail, prefix, names, vals, batchSize);
    forall k | 0 <= k < |bs| ensures DistinctNames(bs[k].parameters) {
      RowsParamsDistinct(prefix, names, BatchRows(vals, k, e), BatchStart(k, e));
    }
    BatchesShareNoNames(header, tail, prefix, names, vals, batchSize);
  }

  /**
   * Whatever the columns, no name of one batch appears in another batch of
   * the same call: every name carries the global index of its row, and
   * different batches hold different rows.
   */
  lemma BatchesShareNoNames(header: string, tail: string, prefix: string, names: seq<string>,
                            vals: seq<seq<Value>>, batchSize: nat)
    requires Rectangular(vals, |names|)
    ensures var bs := Batches(header, tail, prefix, names, vals, batchSize);
      forall k1, k2 :: 0 <= k1 < k2 < |bs| ==> DisjointNames(bs[k1].parameters, bs[k2].parameters)
  {
    var e := EffectiveBatchSize(batchSize);
    var bs := Batches(header, tail, prefix, names, vals, batchSize);
    forall k1, k2 | 0 <= k1 < k2 < |bs| ensures DisjointNames(bs[k1].parameters, bs[k2].parameters) {
      var r1, r2 := BatchRows(vals, k1, e), BatchRows(vals, k2, e);
      RowsParamsNamed(prefix, names, r1, BatchStart(k1, e));
      RowsParamsNamed(prefix, names, r2, BatchStart(k2, e));
      BatchesOrdered(k1, k2, |vals|, e);
      DisjointRowRanges(bs[k1].parameters, bs[k2].parameters,
        BatchStart(k1, e), BatchStart(k1, e) + |r1|, BatchStart(k2, e), BatchStart(k2, e) + |r2|);
    }
  }

  /** Each row adds one parameter per column. */
  lemma {:induction false} RowsParamsLength(prefix: string, names: seq<string>, chunk: seq<seq<Value>>, lo: nat)
    requires Rectangular(chunk, |names|)
    ensures |RowsParams(prefix, names, chunk, lo)| == |chunk| * |names|
    decreases |chunk|
  {
    if |chunk| > 0 {
      var init := chunk[..|chunk| - 1];
      RowsParamsSnoc(prefix, names, chunk, lo);
      RowsParamsLength(prefix, names, init, lo);
      assert |chunk| * |names| == |init| * |names| + |names|;
    }
  }

  /** Cell (t, j) of consecutive rows is parameter t * width + j, named after column j and row lo + t. */
  lemma {:induction false} RowsParamsAt(prefix: string, names: seq<string>, chunk: seq<seq<Value>>, lo: nat, t: nat, j: nat)
    requires Rectangular(chunk, |names|) && t < |chunk| && j < |names|
    ensures t * |names| + j < |RowsParams(prefix, names, chunk, lo)|
    ensures RowsParams(prefix, names, chunk, lo)[t * |names| + j] == (ParamName(prefix, names[j], lo + t), chunk[t][j])
    decreases |chunk|
  {
    var init, last := chunk[..|chunk| - 1], chunk[|chunk| - 1];
    RowsParamsSnoc(prefix, names, chunk, lo);
    RowsParamsLength(prefix, names, init, lo);
    RowsParamsLength(prefix, names, chunk, lo);
    var w := |names|;
    if t < |init| {
      RowsParamsAt(prefix, names, init, lo, t, j);
      MulMono(t + 1, |init|, w);
      assert (t + 1) * w == t * w + w;
      assert init[t] == chunk[t];
    } else {
      assert t == |init|;
    }
  }

  /** Batch i / e starts i % e rows before row i. */
  lemma StartOfRowBatch(i: nat, e: nat)
    requires e >= 1
    ensures BatchStart(i / e, e) + i % e == i
  {
    BatchStartIsProduct(i / e, e);
    assert i == (i / e) * e + i % e;
  }

  /** Row i is row i % e of batch i / e. */
  lemma RowAtInBatch(vals: seq<seq<Value>>, e: nat, i: nat)
    requires e >= 1 && i < |vals|
    ensures i / e < BatchCount(|vals|, e)
    ensures BatchStart(i / e, e) + i % e == i
    ensures i % e < |BatchRows(vals, i / e, e)|
    ensures BatchRows(vals, i / e, e)[i % e] == vals[i]
  {
    var k, t := i / e, i % e;
    RowInBatch(i, |vals|, e);
    StartOfRowBatch(i, e);
    var lo, hi := BatchStart(k, e), BatchEnd(k, |vals|, e);
    var chunk := BatchRows(vals, k, e);
    assert chunk == vals[lo..hi];
    assert chunk[t] == vals[lo + t];
  }

  /** Cell (i, j) is parameter p = (i % e) * width + j of batch k = i / e, named after column j and the global row index i. */
  lemma BatchesCellParameter(header: string, tail: string, prefix: string, names: seq<string>,
                             vals: seq<seq<Value>>, batchSize: nat, i: nat, j: nat)
    returns (k: nat, p: nat)
    requires Rectangular(vals, |names|) && i < |vals| && j < |names|
    ensures k == i / EffectiveBatchSize(batchSize)
    ensures p == (i % EffectiveBatchSize(batchSize)) * |names| + j
    ensures var bs := Batches(header, tail, prefix, names, vals, batchSize);
      && k < |bs| && p < |bs[k].parameters|
      && bs[k].parameters[p] == (ParamName(prefix, names[j], i), vals[i][j])
  {
    var e := EffectiveBatchSize(batchSize);
    var t := i % e;
    k := i / e;
    MulMono(0, t, |names|);
    p := t * |names| + j;
    RowAtInBatch(vals, e, i);
    BatchCellAt(prefix, names, vals, e, k, t, j);
    assert Batches(header, tail, prefix, names, vals, batchSize)[k].parameters
        == RowsParams(prefix, names, BatchRows(vals, k, e), BatchStart(k, e));
  }

  /** Cell j of row t of batch k is its parameter t * width + j, named after and valued from row BatchStart(k) + t. */
  lemma BatchCellAt(prefix: string, names: seq<string>, vals: seq<seq<Value>>, e: nat, k: nat, t: nat, j: nat)
    requires Rectangular(vals, |names|) && j < |names| && e >= 1
    requires k < BatchCount(|vals|, e)
    requires t < |BatchRows(vals, k, e)|
    ensures var ps := RowsParams(prefix, names, BatchRows(vals, k, e), BatchStart(k, e));
      && BatchStart(k, e) + t < |vals|
      && t * |names| + j < |ps|
      && ps[t * |names| + j] == (ParamName(prefix, names[j], BatchStart(k, e) + t), vals[BatchStart(k, e) + t][j])
  {
    var chunk, lo := BatchRows(vals, k, e), BatchStart(k, e);
    assert chunk[t] == vals[lo + t];
    RowsParamsAt(prefix, names, chunk, lo, t, j);
  }

  /** A row's tuple always ends with its closing parenthesis. */
  lemma RowTupleEndsWithParen(prefix: string, names: seq<string>, i: nat)
    ensures var t := RowTuple(prefix, names, i); |t| >= 1 && t[|t| - 1] == ')'
  {
  }

  /**
   * The text of every batch is its header, then at least one tuple (so a
   * closing parenthesis right before the tail), then its tail.
   */
  lemma BatchQueryShape(header: string, tail: string, prefix: string, names: seq<string>,
                        vals: seq<seq<Value>>, batchSize: nat, k: nat)
    requires Rectangular(vals, |names|)
    requires k < |Batches(header, tail, prefix, names, vals, batchSize)|
    ensures var q := Batches(header, tail, prefix, names, vals, batchSize)[k].query;
      && |q| >= |header| + 1 + |tail|
      && q[..|header|] == header
      && q[|q| - |tail|..] == tail
      && q[|q| - |tail| - 1] == ')'
  {
    var e := EffectiveBatchSize(batchSize);
    var n := |BatchRows(vals, k, e)|;
    var ts := RowsTuples(prefix, names, n, BatchStart(k, e));
    BatchQueryText(header, tail, prefix, names, vals, batchSize, k);
    JoinEndsWithLast(",", ts);
    LastTupleEndsWithParen(prefix, names, n, BatchStart(k, e));
    StatementTextShape(Batches(header, tail, prefix, names, vals, batchSize)[k].query, header, Join(",", ts), ts[|ts| - 1], tail);
  }

  /** The last of a run of tuples ends with its closing parenthesis. */
  lemma LastTupleEndsWithParen(prefix: string, names: seq<string>, count: nat, lo: nat)
    requires count > 0
    ensures var ts := RowsTuples(prefix, names, count, lo);
      |ts[|ts| - 1]| >= 1 && ts[|ts| - 1][|ts[|ts| - 1]| - 1] == ')'
  {
    RowTupleEndsWithParen(prefix, names, lo + (count - 1));
  }

  /** The text of batch k: the header, its rows' tuples joined by `,`, the tail. */
  lemma BatchQueryText(header: string, tail: string, prefix: string, names: seq<string>,
                       vals: seq<seq<Value>>, batchSize: nat, k: nat)
    requires Rectangular(vals, |names|)
    requires k < |Batches(header, tail, prefix, names, vals, batchSize)|
    ensures var e := EffectiveBatchSize(batchSize);
      Batches(header, tail, prefix, names, vals, batchSize)[k].query
      == header + Join(",", RowsTuples(prefix, names, |BatchRows(vals, k, e)|, BatchStart(k, e))) + tail
  {
  }

  /** Header, then a body ending with a text that ends with `)`, then the tail. */
  lemma StatementTextShape(q: string, header: string, body: string, last: string, tail: string)
    requires q == header + body + tail
    requires |last| >= 1 && last[|last| - 1] == ')'
    requires |body| >= |last| && body[|body| - |last|..] == last
    ensures |q| >= |header| + 1 + |tail|
      && q[..|header|] == header
      && q[|q| - |tail|..] == tail
      && q[|q| - |tail| - 1] == ')'
  {
    assert body[|body| - 1] == last[|last| - 1];
  }

  /** With batch size 0 every row is a batch of its own. */
  lemma ZeroBatchSizeOneRowPerBatch(header: string, tail: string, prefix: string, names: seq<string>, vals: seq<seq<Value>>)
    requires Rectangular(vals, |names|)
    ensures var bs := Batches(header, tail, prefix, names, vals, 0);
      && |bs| == |vals|
      && forall k :: 0 <= k < |bs| ==> bs[k] == MakeBatch(header, tail, prefix, names, [vals[k]], k)
  {
    var bs := Batches(header, tail, prefix, names, vals, 0);
    BatchCountIsCeiling(|vals|, 1);
    assert |bs| == |vals|;
    forall k | 0 <= k < |bs| ensures bs[k] == MakeBatch(header, tail, prefix, names, [vals[k]], k) {
      BatchStartIsProduct(k, 1);
      BatchStartIsProduct(k + 1, 1);
      assert BatchRows(vals, k, 1) == [vals[k]];
    }
  }
}
