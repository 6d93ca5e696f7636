/**
 * The JavaScript string operations the pipeline relies on, over strings of
 * code points: `trim`, `join`, `split` on a one-character separator,
 * `slice(-2)`, `repeat`, `Number.prototype.toString` for integers and the
 * `Number(string)` conversion for decimal integer literals.
 */
module JsText {
  import opened Nullish

  // ---------------------------------------------------------------------
  // Whitespace and trim
  // ---------------------------------------------------------------------

  /** The WhiteSpace and LineTerminator code points of ECMA-262 (sections 12.2 and 12.3), which `trim` strips. */
  const JS_WHITESPACE: set<char> := {
    '\t', '\U{000B}', '\U{000C}', ' ', '\U{00A0}', '\U{FEFF}',            // WhiteSpace
    '\n', '\r', '\U{2028}', '\U{2029}',                                   // LineTerminator
    '\U{1680}', '\U{2000}', '\U{2001}', '\U{2002}', '\U{2003}', '\U{2004}', '\U{2005}',
    '\U{2006}', '\U{2007}', '\U{2008}', '\U{2009}', '\U{200A}', '\U{202F}', '\U{205F}', '\U{3000}'  // other Zs
  }

  /** Membership in `JS_WHITESPACE`, by code point ranges. */
  predicate IsJsWhitespace(c: char) {
    var k := c as int;
    (0x09 <= k <= 0x0D) || k == 0x20 || k == 0xA0 || k == 0x1680 || (0x2000 <= k <= 0x200A)
    || k == 0x2028 || k == 0x2029 || k == 0x202F || k == 0x205F || k == 0x3000 || k == 0xFEFF
  }

  /** The ranges are exactly the listed code points. */
  lemma WhitespaceRanges(c: char)
    ensures IsJsWhitespace(c) <==> c in JS_WHITESPACE
  {
  }

  function TrimStart(s: string): (r: string)
    ensures |r| <= |s| && r == s[|s| - |r|..]
    ensures r == [] || !IsJsWhitespace(r[0])
  {
    if |s| > 0 && IsJsWhitespace(s[0]) then TrimStart(s[1..]) else s
  }

  function TrimEnd(s: string): (r: string)
    ensures |r| <= |s| && r == s[..|r|]
    ensures r == [] || !IsJsWhitespace(r[|r| - 1])
  {
    if |s| > 0 && IsJsWhitespace(s[|s| - 1]) then TrimEnd(s[..|s| - 1]) else s
  }

  /** `String.prototype.trim`: whitespace removed from both ends. */
  function Trim(s: string): (r: string)
    ensures |r| <= |s|
    ensures r == [] || (!IsJsWhitespace(r[0]) && !IsJsWhitespace(r[|r| - 1]))
  {
    TrimEnd(TrimStart(s))
  }

  lemma {:induction false} TrimStartDrops(s: string)
    ensures forall k :: 0 <= k < |s| - |TrimStart(s)| ==> IsJsWhitespace(s[k])
  {
    if |s| > 0 && IsJsWhitespace(s[0]) {
      TrimStartDrops(s[1..]);
    }
  }

  lemma {:induction false} TrimEndDrops(s: string)
    ensures forall k :: |TrimEnd(s)| <= k < |s| ==> IsJsWhitespace(s[k])
  {
    if |s| > 0 && IsJsWhitespace(s[|s| - 1]) {
      TrimEndDrops(s[..|s| - 1]);
    }
  }

  /** `trim` keeps a factor of its input and removes only whitespace around it. */
  lemma TrimIsFactor(s: string) returns (i: nat, j: nat)
    ensures i <= j <= |s| && Trim(s) == s[i..j]
    ensures forall k :: 0 <= k < i ==> IsJsWhitespace(s[k])
    ensures forall k :: j <= k < |s| ==> IsJsWhitespace(s[k])
  {
    var t := TrimStart(s);
    TrimStartDrops(s);
    TrimEndDrops(t);
    i := |s| - |t|;
    j := i + |TrimEnd(t)|;
    assert t == s[i..];
  }

  /** A string that neither starts nor ends with whitespace is its own trim. */
  lemma TrimNoop(s: string)
    requires s == [] || (!IsJsWhitespace(s[0]) && !IsJsWhitespace(s[|s| - 1]))
    ensures Trim(s) == s
  {
  }

  // ---------------------------------------------------------------------
  // join / split
  // ---------------------------------------------------------------------

  /** `Array.prototype.join(sep)` on an array of strings. */
  function Join(sep: string, parts: seq<string>): (r: string)
    ensures parts == [] ==> r == ""
    ensures |parts| == 1 ==> r == parts[0]
  {
    if |parts| == 0 then ""
    else if |parts| == 1 then parts[0]
    else parts[0] + sep + Join(sep, parts[1..])
  }

  function SumLengths(parts: seq<string>): nat {
    if parts == [] then 0 else |parts[0]| + SumLengths(parts[1..])
  }

  lemma {:induction false} JoinLength(sep: string, parts: seq<string>)
    requires parts != []
    ensures |Join(sep, parts)| == SumLengths(parts) + |sep| * (|parts| - 1)
  {
    if |parts| > 1 {
      JoinLength(sep, parts[1..]);
    }
  }

  /** Joining two non-empty lists puts exactly one separator between them. */
  lemma {:induction false} JoinAppend(sep: string, a: seq<string>, b: seq<string>)
    requires a != [] && b != []
    ensures Join(sep, a + b) == Join(sep, a) + sep + Join(sep, b)
  {
    if |a| == 1 {
      assert (a + b)[1..] == b;
    } else {
      assert (a + b)[1..] == a[1..] + b;
      JoinAppend(sep, a[1..], b);
    }
  }

  /** A join starts with its first part and ends with its last part. */
  lemma {:induction false} JoinEnds(sep: string, parts: seq<string>)
    requires parts != []
    ensures parts[0] <= Join(sep, parts)
    ensures |parts[|parts| - 1]| <= |Join(sep, parts)|
    ensures Join(sep, parts)[|Join(sep, parts)| - |parts[|parts| - 1]|..] == parts[|parts| - 1]
  {
    if |parts| > 1 {
      JoinEnds(sep, parts[1..]);
      var rest := Join(sep, parts[1..]);
      var r := Join(sep, parts);
      assert r == parts[0] + sep + rest;
      assert r[..|parts[0]|] == parts[0];
      assert r[|r| - |rest|..] == rest;
    }
  }

  /** A join whose first part starts and whose last part ends with a non-whitespace character is its own trim. */
  lemma JoinTrimNoop(sep: string, ts: seq<string>)
    requires ts != [] && ts[0] != [] && ts[|ts| - 1] != []
    requires !IsJsWhitespace(ts[0][0]) && !IsJsWhitespace(ts[|ts| - 1][|ts[|ts| - 1]| - 1])
    ensures Trim(Join(sep, ts)) == Join(sep, ts)
  {
    JoinEnds(sep, ts);
    var j := Join(sep, ts);
    var last := ts[|ts| - 1];
    assert j[|j| - |last|..][|last| - 1] == last[|last| - 1];
    assert j[0] == ts[0][0];
    TrimNoop(j);
  }

  /** `String.prototype.split(sep)` for a one-character separator: the pieces between separators, always at least one. */
  function Split(s: string, sep: char): (r: seq<string>)
    ensures |r| >= 1
    ensures forall i :: 0 <= i < |r| ==> sep !in r[i]
  {
    if |s| == 0 then [""]
    else if s[0] == sep then [""] + Split(s[1..], sep)
    else
      var t := Split(s[1..], sep);
      [[s[0]] + t[0]] + t[1..]
  }

  /** Splitting and joining again gives the original string back. */
  lemma {:induction false} JoinSplit(s: string, sep: char)
    ensures Join([sep], Split(s, sep)) == s
  {
    if |s| == 0 {
    } else if s[0] == sep {
      JoinSplit(s[1..], sep);
      assert ([""] + Split(s[1..], sep))[1..] == Split(s[1..], sep);
    } else {
      var t := Split(s[1..], sep);
      JoinSplit(s[1..], sep);
      var r := [[s[0]] + t[0]] + t[1..];
      assert r[1..] == t[1..];
      if |t| > 1 {
        assert Join([sep], t) == t[0] + [sep] + Join([sep], t[1..]);
      }
    }
  }

  /** Splitting a join of separator-free pieces gives the pieces back. */
  lemma {:induction false} SplitJoin(parts: seq<string>, sep: char)
    requires parts != []
    requires forall i :: 0 <= i < |parts| ==> sep !in parts[i]
    ensures Split(Join([sep], parts), sep) == parts
  {
    if |parts| == 1 {
      SplitNoSep(parts[0], sep);
    } else {
      SplitJoin(parts[1..], sep);
      SplitPrefix(parts[0], Join([sep], parts[1..]), sep);
      assert [parts[0]] + parts[1..] == parts;
    }
  }

  lemma {:induction false} SplitNoSep(s: string, sep: char)
    requires sep !in s
    ensures Split(s, sep) == [s]
  {
    if |s| > 0 {
      SplitNoSep(s[1..], sep);
      assert [s[0]] + s[1..] == s;
    }
  }

  /** Split of `a + sep + b`, where `a` holds no separator, is `a` followed by the split of `b`. */
  lemma {:induction false} SplitPrefix(a: string, b: string, sep: char)
    requires sep !in a
    ensures Split(a + [sep] + b, sep) == [a] + Split(b, sep)
  {
    if |a| == 0 {
      assert a + [sep] + b == [sep] + b;
      assert ([sep] + b)[1..] == b;
    } else {
      assert (a + [sep] + b)[1..] == a[1..] + [sep] + b;
      SplitPrefix(a[1..], b, sep);
      assert [a[0]] + a[1..] == a;
    }
  }

  /** Splitting at one separator gives the pieces before it followed by the pieces after it. */
  lemma {:induction false} SplitAppend(a: string, b: string, sep: char)
    ensures Split(a + [sep] + b, sep) == Split(a, sep) + Split(b, sep)
  {
    if |a| == 0 {
      assert a + [sep] + b == [sep] + b;
      SplitCons(sep, b, sep);
    } else {
      var c, r := a[0], a[1..];
      SplitAppend(r, b, sep);
      SplitPrepend(c, r, r + [sep] + b, Split(b, sep), sep);
      assert a == [c] + r;
      assert a + [sep] + b == [c] + (r + [sep] + b);
    }
  }

  /** If `x` splits into the pieces of `r` followed by `u`, then so does `c` in front of each. */
  lemma SplitPrepend(c: char, r: string, x: string, u: seq<string>, sep: char)
    requires Split(x, sep) == Split(r, sep) + u
    ensures Split([c] + x, sep) == Split([c] + r, sep) + u
  {
    var t := Split(r, sep);
    if c == sep {
      calc {
        Split([c] + x, sep);
        { SplitCons(c, x, sep); }
        [""] + (t + u);
        [""] + t + u;
        { SplitCons(c, r, sep); }
        Split([c] + r, sep) + u;
      }
    } else {
      calc {
        Split([c] + x, sep);
        { SplitCons(c, x, sep); }
        [[c] + (t + u)[0]] + (t + u)[1..];
        { ExtendFirst([c], t, u); }
        [[c] + t[0]] + t[1..] + u;
        { SplitCons(c, r, sep); }
        Split([c] + r, sep) + u;
      }
    }
  }

  /** Extending the first piece commutes with appending further pieces. */
  lemma ExtendFirst(p: string, t: seq<string>, u: seq<string>)
    requires |t| >= 1
    ensures [p + (t + u)[0]] + (t + u)[1..] == [p + t[0]] + t[1..] + u
  {
    assert (t + u)[1..] == t[1..] + u;
  }

  /** One step of `Split`: a separator opens a new piece, any other character joins the first piece. */
  lemma SplitCons(c: char, rest: string, sep: char)
    ensures Split([c] + rest, sep) ==
      if c == sep then [""] + Split(rest, sep)
      else [[c] + Split(rest, sep)[0]] + Split(rest, sep)[1..]
  {
    var s := [c] + rest;
    assert s[0] == c && s[1..] == rest;
  }

  /** `slice(-2)`: the last two elements, or all of them when there are fewer. */
  function LastTwo<T>(xs: seq<T>): (r: seq<T>)
    ensures |r| == if |xs| < 2 then |xs| else 2
    ensures r == xs[|xs| - |r|..]
  {
    if |xs| <= 2 then xs else xs[|xs| - 2..]
  }

  /** `xs.map((x, i) => f(x, i))`: one result per element, in order, given the element and its index. */
  function MapIndexed<T, U>(xs: seq<T>, f: (T, int) -> U): (ys: seq<U>)
    ensures |ys| == |xs|
  {
    seq(|xs|, i requires 0 <= i < |xs| => f(xs[i], i))
  }

  /** Result i is f applied to element i and its index. */
  lemma MapIndexedAt<T, U>(xs: seq<T>, f: (T, int) -> U, i: int)
    requires 0 <= i < |xs|
    ensures MapIndexed(xs, f)[i] == f(xs[i], i)
  {
  }

  // ---------------------------------------------------------------------
  // repeat
  // ---------------------------------------------------------------------

  /** `c.repeat(n)`. */
  function Repeat(c: char, n: nat): (r: string)
    ensures |r| == n
    ensures forall i :: 0 <= i < n ==> r[i] == c
  {
    if n == 0 then "" else [c] + Repeat(c, n - 1)
  }

  // ---------------------------------------------------------------------
  // Integers as decimal text
  // ---------------------------------------------------------------------

  function DigitChar(d: nat): (c: char)
    requires d < 10
    ensures '0' <= c <= '9'
    ensures (c as int) - ('0' as int) == d
  {
    (('0' as int) + d) as char
  }

  predicate IsDigit(c: char) {
    '0' <= c <= '9'
  }

  /** The decimal digits of a non-negative integer, with no leading zero. */
  function NatDecimal(n: nat): (r: string)
    ensures |r| >= 1
    ensures forall i :: 0 <= i < |r| ==> IsDigit(r[i])
    ensures r[0] == '0' ==> n == 0
  {
    if n < 10 then [DigitChar(n)] else NatDecimal(n / 10) + [DigitChar(n % 10)]
  }

  /** `Number.prototype.toString()` for an integer (exponent notation from 10^21 upward is not modelled). */
  function Decimal(n: int): (r: string)
    ensures |r| >= 1
  {
    if n < 0 then "-" + NatDecimal(-n) else NatDecimal(n)
  }

  predicate AllDigits(s: string) {
    forall i :: 0 <= i < |s| ==> IsDigit(s[i])
  }

  /** The value of a string of decimal digits. */
  function DigitsValue(s: string): nat
    requires forall i :: 0 <= i < |s| ==> IsDigit(s[i])
  {
    if s == [] then 0
    else
      var last := s[|s| - 1];
      assert IsDigit(last);
      10 * DigitsValue(s[..|s| - 1]) + ((last as int) - ('0' as int))
  }

  /** Reading the digits back gives the number. */
  lemma {:induction false} NatDecimalValue(n: nat)
    ensures DigitsValue(NatDecimal(n)) == n
  {
    if n >= 10 {
      NatDecimalValue(n / 10);
      var s := NatDecimal(n / 10) + [DigitChar(n % 10)];
      assert s[..|s| - 1] == NatDecimal(n / 10);
    }
  }

  /**
   * `Number(s)` for the forms the model handles: surrounding whitespace is
   * ignored, an empty (or all-whitespace) string is 0, and an optional sign
   * followed by decimal digits is that integer. Every other string is
   * reported as `None` (not a number).
   */
  function NumberOf(s: string): (r: Option<int>)
  {
    NumberOfTrimmed(Trim(s))
  }

  function NumberOfTrimmed(t: string): Option<int> {
    if t == "" then Some(0)
    else if t[0] == '-' && AllDigits(t[1..]) && |t| > 1 then Some(-(DigitsValue(t[1..]) as int))
    else if t[0] == '+' && AllDigits(t[1..]) && |t| > 1 then Some(DigitsValue(t[1..]) as int)
    else if AllDigits(t) then Some(DigitsValue(t) as int)
    else None
  }

  /** `Number(String(m)) === m` for every non-negative integer. */
  lemma NumberOfNatDecimal(m: nat)
    ensures NumberOf(NatDecimal(m)) == Some(m)
  {
    var d := NatDecimal(m);
    NatDecimalValue(m);
    NumberOfDigits(d);
  }

  /** `Number(String(-m)) === -m` for every positive integer. */
  lemma NumberOfNegativeDecimal(m: nat)
    requires m > 0
    ensures NumberOf(Decimal(-(m as int))) == Some(-(m as int))
  {
    var s := Decimal(-(m as int));
    DecimalNegative(m);
    assert s[1..] == NatDecimal(m);
    NatDecimalValue(m);
    NumberOfSigned(s);
  }

  /** A negative integer is rendered as `-` followed by the digits of its magnitude. */
  lemma DecimalNegative(m: nat)
    requires m > 0
    ensures Decimal(-(m as int)) == "-" + NatDecimal(m)
  {
    assert -(-(m as int)) == m;
  }

  /** A minus sign followed by digits is read as the negated value of the digits. */
  lemma NumberOfSigned(s: string)
    requires |s| >= 2 && s[0] == '-' && AllDigits(s[1..])
    ensures NumberOf(s) == Some(-(DigitsValue(s[1..]) as int))
  {
    assert s[|s| - 1] == s[1..][|s| - 2];
    assert IsDigit(s[|s| - 1]);
    TrimNoop(s);
  }

  lemma NumberOfDigits(d: string)
    requires |d| >= 1 && AllDigits(d)
    ensures NumberOf(d) == Some(DigitsValue(d) as int)
  {
    assert IsDigit(d[0]) && IsDigit(d[|d| - 1]);
    TrimNoop(d);
  }
}
