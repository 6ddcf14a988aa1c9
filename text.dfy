/**
 * String assembly: `string.Join`, concatenation, decimal rendering of row
 * indexes and the placeholder names `@{prefix}{column}_{index}` that every
 * generator uses for its parameters.
 */
module Text {
  import opened Common

  /** `string.Join(sep, parts)`: the parts with `sep` between neighbours, never trailing. */
  function Join(sep: string, parts: seq<string>): string
    decreases |parts|
  {
    if |parts| == 0 then ""
    else if |parts| == 1 then parts[0]
    else Join(sep, parts[..|parts| - 1]) + sep + parts[|parts| - 1]
  }

  /** Appending one more part to a join adds one separator and the part. */
  lemma JoinSnoc(sep: string, parts: seq<string>, p: string)
    ensures Join(sep, parts + [p]) == if parts == [] then p else Join(sep, parts) + sep + p
  {
    assert (parts + [p])[..|parts|] == parts;
  }

  /** A non-empty join ends with its last part. */
  lemma JoinEndsWithLast(sep: string, parts: seq<string>)
    requires |parts| > 0
    ensures |Join(sep, parts)| >= |parts[|parts| - 1]|
    ensures Join(sep, parts)[|Join(sep, parts)| - |parts[|parts| - 1]|..] == parts[|parts| - 1]
  {
  }

  /** A non-empty join starts with its first part. */
  lemma {:induction false} JoinStartsWithFirst(sep: string, parts: seq<string>)
    requires |parts| > 0
    ensures |parts[0]| <= |Join(sep, parts)| && Join(sep, parts)[..|parts[0]|] == parts[0]
    decreases |parts|
  {
    if |parts| > 1 {
      var init := parts[..|parts| - 1];
      JoinStartsWithFirst(sep, init);
      var j := Join(sep, init);
      assert init[0] == parts[0];
      assert (j + sep + parts[|parts| - 1])[..|parts[0]|] == j[..|parts[0]|];
    }
  }

  /** Concatenation is associative (stated once, so that callers need not re-derive it element by element). */
  lemma AppendAssoc<T>(a: seq<T>, b: seq<T>, c: seq<T>)
    ensures (a + b) + c == a + (b + c)
  {
  }

  /** `s` ends with `suffix`. */
  ghost predicate EndsWith(s: string, suffix: string)
  {
    |suffix| <= |s| && s[|s| - |suffix|..] == suffix
  }

  /** `s` starts with `head`. */
  ghost predicate StartsWith(s: string, head: string)
  {
    |head| <= |s| && s[..|head|] == head
  }

  /** The plain concatenation of the parts, in order. */
  function Concat(parts: seq<string>): string
    decreases |parts|
  {
    if |parts| == 0 then "" else Concat(parts[..|parts| - 1]) + parts[|parts| - 1]
  }

  lemma ConcatSnoc(parts: seq<string>, p: string)
    ensures Concat(parts + [p]) == Concat(parts) + p
  {
    assert (parts + [p])[..|parts|] == parts;
  }

  /** The concatenation of a sequence of sequences, in order. */
  function Flatten<T>(xss: seq<seq<T>>): seq<T>
    decreases |xss|
  {
    if |xss| == 0 then [] else Flatten(xss[..|xss| - 1]) + xss[|xss| - 1]
  }

  lemma FlattenSnoc<T>(xss: seq<seq<T>>, xs: seq<T>)
    ensures Flatten(xss + [xs]) == Flatten(xss) + xs
  {
    assert (xss + [xs])[..|xss|] == xss;
  }

  /** Flattening distributes over concatenation. */
  lemma {:induction false} FlattenAppend<T>(xss: seq<seq<T>>, yss: seq<seq<T>>)
    ensures Flatten(xss + yss) == Flatten(xss) + Flatten(yss)
    decreases |yss|
  {
    if |yss| == 0 {
      assert xss + yss == xss;
    } else {
      var init, last := yss[..|yss| - 1], yss[|yss| - 1];
      assert yss == init + [last];
      assert xss + yss == (xss + init) + [last];
      FlattenSnoc(xss + init, last);
      FlattenAppend(xss, init);
      FlattenSnoc(init, last);
    }
  }

  /* --- Decimal rendering of row indexes ({i} in an interpolated string) --- */

  function DigitChar(d: nat): (c: char)
    requires d < 10
    ensures '0' <= c <= '9'
  {
    ('0' as int + d) as char
  }

  function DigitValue(c: char): nat
  {
    if '0' <= c <= '9' then (c as int - '0' as int) else 0
  }

  ghost predicate AllDigits(s: string)
  {
    forall j :: 0 <= j < |s| ==> '0' <= s[j] <= '9'
  }

  /** The invariant-culture decimal text of a non-negative integer. */
  function NatToString(n: nat): (s: string)
    ensures |s| >= 1 && AllDigits(s)
    decreases n
  {
    if n < 10 then [DigitChar(n)] else NatToString(n / 10) + [DigitChar(n % 10)]
  }

  /** Reads a string of decimal digits back as a number. */
  function ParseNat(s: string): nat
    decreases |s|
  {
    if |s| == 0 then 0 else ParseNat(s[..|s| - 1]) * 10 + DigitValue(s[|s| - 1])
  }

  /** Rendering an index and reading it back gives the index. */
  lemma {:induction false} ParseNatToString(n: nat)
    ensures ParseNat(NatToString(n)) == n
    decreases n
  {
    if n >= 10 {
      var s := NatToString(n);
      ParseNatToString(n / 10);
      assert s[..|s| - 1] == NatToString(n / 10);
    }
  }

  /** Different indexes render differently. */
  lemma NatToStringInjective(a: nat, b: nat)
    requires NatToString(a) == NatToString(b)
    ensures a == b
  {
    ParseNatToString(a);
    ParseNatToString(b);
  }

  /* --- Placeholder names --- */

  /** `@{prefix}{column}_{index}`: the placeholder and parameter name of one cell. */
  function ParamName(prefix: string, column: string, index: nat): string
  {
    "@" + prefix + column + "_" + NatToString(index)
  }

  /** A string `head + "_" + digits` determines `head` and `digits`: the last underscore separates them. */
  lemma {:induction false} SplitAtLastUnderscore(a: string, d1: string, b: string, d2: string)
    requires AllDigits(d1) && AllDigits(d2)
    requires a + "_" + d1 == b + "_" + d2
    ensures a == b && d1 == d2
  {
    var s := a + "_" + d1;
    assert |a| + |d1| == |b| + |d2|;
    assert s == b + "_" + d2;
    // Both heads are followed by the underscore, and neither digit run holds one.
    assert s[|a|] == '_' && s[|b|] == '_';
    assert |a| == |b|;
    assert a == s[..|a|] == b;
    assert d1 == s[|a| + 1..] == d2;
  }

  /** The characters after the last underscore of a string (all of it when there is none). */
  function AfterLastUnderscore(s: string): string
    decreases |s|
  {
    if |s| == 0 || s[|s| - 1] == '_' then "" else AfterLastUnderscore(s[..|s| - 1]) + [s[|s| - 1]]
  }

  /** The row index a placeholder name carries: the number after its last underscore. */
  function NameIndex(name: string): nat
  {
    ParseNat(AfterLastUnderscore(name))
  }

  /** A digit run after an underscore is exactly what follows the last underscore. */
  lemma {:induction false} AfterUnderscoreDigits(head: string, digits: string)
    requires AllDigits(digits)
    ensures AfterLastUnderscore(head + "_" + digits) == digits
    decreases |digits|
  {
    var s := head + "_" + digits;
    if |digits| == 0 {
      assert s[|s| - 1] == '_';
    } else {
      var init := digits[..|digits| - 1];
      assert s[..|s| - 1] == head + "_" + init;
      AfterUnderscoreDigits(head, init);
      assert init + [digits[|digits| - 1]] == digits;
    }
  }

  /** The row index can be read back from a placeholder name. */
  lemma NameIndexOfParamName(prefix: string, column: string, index: nat)
    ensures NameIndex(ParamName(prefix, column, index)) == index
  {
    assert ParamName(prefix, column, index) == ("@" + prefix + column) + "_" + NatToString(index);
    AfterUnderscoreDigits("@" + prefix + column, NatToString(index));
    ParseNatToString(index);
  }

  /**
   * Within one prefix, a placeholder name determines its column and its row
   * index: two cells get the same name only if they are the same cell.
   */
  lemma ParamNameInjective(prefix: string, c1: string, i1: nat, c2: string, i2: nat)
    requires ParamName(prefix, c1, i1) == ParamName(prefix, c2, i2)
    ensures c1 == c2 && i1 == i2
  {
    assert "@" + prefix + c1 + "_" + NatToString(i1) == ("@" + prefix + c1) + "_" + NatToString(i1);
    assert "@" + prefix + c2 + "_" + NatToString(i2) == ("@" + prefix + c2) + "_" + NatToString(i2);
    SplitAtLastUnderscore("@" + prefix + c1, NatToString(i1), "@" + prefix + c2, NatToString(i2));
    var h := "@" + prefix;
    assert c1 == ("@" + prefix + c1)[|h|..];
    assert c2 == ("@" + prefix + c2)[|h|..];
    NatToStringInjective(i1, i2);
  }
}
