/**
 * The `find` command's helpers (packages/cli/src/commands/find/utils.ts):
 * the wide-character table and the width-bounded prefix, the star, age and
 * colour formatters, the repository key and the enrichment join, and the
 * label and language defaults.
 */
module FindUtils {
  import opened Nullish
  import opened Results
  import opened JsText
  import opened GitHubTypes
  import opened FindConstants
  import opened Cli

  // ---------------------------------------------------------------------
  // Display width
  // ---------------------------------------------------------------------

  /**
   * `isWide(code)`: the code point lies in one of seventeen ranges that
   * terminals draw two columns wide (Hangul Jamo, CJK, Hangul syllables,
   * fullwidth forms, emoji and related symbol blocks).
   */
  predicate IsWide(code: int)
    ensures IsWide(code) ==> 0x1100 <= code <= 0x3FFFD
  {
    (0x1100 <= code <= 0x115F)
    || (0x2E80 <= code <= 0x303E)
    || (0x3040 <= code <= 0x33BF)
    || (0x3400 <= code <= 0x4DBF)
    || (0x4E00 <= code <= 0xA4CF)
    || (0xAC00 <= code <= 0xD7AF)
    || (0xF900 <= code <= 0xFAFF)
    || (0xFE30 <= code <= 0xFE6F)
    || (0xFF01 <= code <= 0xFF60)
    || (0xFFE0 <= code <= 0xFFE6)
    || (0x20000 <= code <= 0x2FFFD)
    || (0x30000 <= code <= 0x3FFFD)
    || (0x1F300 <= code <= 0x1F9FF)
    || (0x1FA00 <= code <= 0x1FA6F)
    || (0x1FA70 <= code <= 0x1FAFF)
    || (0x2600 <= code <= 0x27BF)
    || (0x231A <= code <= 0x23F3)
  }

  /** Hangul syllables are wide; box drawing and everything below U+1100 are not. */
  lemma WideTable()
    ensures forall code :: 0xAC00 <= code <= 0xD7AF ==> IsWide(code)
    ensures forall code :: 0x2500 <= code <= 0x257F ==> !IsWide(code)
    ensures forall code :: 0 <= code < 0x1100 ==> !IsWide(code)
    ensures IsWide(0x1F600) && IsWide(0x4E2D) && !IsWide(0xFFFD)
  {
  }

  /** The columns `sliceWidth` counts for one code point: two when wide, else one. */
  function CharWidth(c: char): (w: nat)
    ensures w == 1 || w == 2
    ensures w == 2 <==> IsWide(c as int)
  {
    if IsWide(c as int) then 2 else 1
  }

  /** The columns of a string as `sliceWidth` counts them. */
  function WideWidth(s: string): (w: nat)
    ensures |s| <= w <= 2 * |s|
  {
    if s == [] then 0 else WideWidth(s[..|s| - 1]) + CharWidth(s[|s| - 1])
  }

  lemma {:induction false} WideWidthAppend(a: string, b: string)
    ensures WideWidth(a + b) == WideWidth(a) + WideWidth(b)
  {
    if b == [] {
      assert a + b == a;
    } else {
      WideWidthAppend(a, b[..|b| - 1]);
      assert (a + b)[..|a + b| - 1] == a + b[..|b| - 1];
    }
  }

  lemma WideWidthSingle(c: char)
    ensures WideWidth([c]) == CharWidth(c)
  {
    assert [c][..0] == [];
  }

  /** Text below U+1100 is one column per code point. */
  lemma {:induction false} WideWidthNarrow(s: string)
    requires forall i :: 0 <= i < |s| ==> (s[i] as int) < 0x1100
    ensures WideWidth(s) == |s|
  {
    if s != [] {
      WideWidthNarrow(s[..|s| - 1]);
    }
  }

  /**
   * The string `sliceWidth(s, maxWidth)` returns: code points are taken
   * from the front while the running width stays within `maxWidth`, and
   * the first one that would overflow ends the prefix.
   */
  function WidePrefix(s: string, maxWidth: int): (r: string)
    ensures |r| <= |s|
    ensures maxWidth < 1 ==> r == []
  {
    if s == [] || CharWidth(s[0]) > maxWidth then []
    else [s[0]] + WidePrefix(s[1..], maxWidth - CharWidth(s[0]))
  }

  /** The prefix is a prefix of `s`. */
  lemma {:induction false} WidePrefixIsPrefix(s: string, maxWidth: int)
    ensures WidePrefix(s, maxWidth) == s[..|WidePrefix(s, maxWidth)|]
  {
    if s != [] && CharWidth(s[0]) <= maxWidth {
      var t := WidePrefix(s[1..], maxWidth - CharWidth(s[0]));
      WidePrefixIsPrefix(s[1..], maxWidth - CharWidth(s[0]));
      assert [s[0]] + s[1..][..|t|] == s[..|t| + 1];
    }
  }

  /** The prefix fits in `maxWidth` columns. */
  lemma {:induction false} WidePrefixWidth(s: string, maxWidth: int)
    requires maxWidth >= 0
    ensures WideWidth(WidePrefix(s, maxWidth)) <= maxWidth
  {
    if s != [] && CharWidth(s[0]) <= maxWidth {
      var c := CharWidth(s[0]);
      var t := WidePrefix(s[1..], maxWidth - c);
      WidePrefixWidth(s[1..], maxWidth - c);
      assert WidePrefix(s, maxWidth) == [s[0]] + t;
      WideWidthSingle(s[0]);
      WideWidthAppend([s[0]], t);
    }
  }

  /** The prefix is maximal: it is all of `s`, or the next code point would overflow. */
  lemma {:induction false} WidePrefixMaximal(s: string, maxWidth: int)
    ensures |WidePrefix(s, maxWidth)| < |s| ==>
      WideWidth(WidePrefix(s, maxWidth)) + CharWidth(s[|WidePrefix(s, maxWidth)|]) > maxWidth
  {
    if s != [] && CharWidth(s[0]) <= maxWidth {
      var c := CharWidth(s[0]);
      var t := WidePrefix(s[1..], maxWidth - c);
      WidePrefixMaximal(s[1..], maxWidth - c);
      WideWidthSingle(s[0]);
      WideWidthAppend([s[0]], t);
      if |t| < |s[1..]| {
        assert s[|[s[0]] + t|] == s[1..][|t|];
      }
    }
  }

  /** A string that fits is kept whole. */
  lemma {:induction false} WidePrefixWhole(s: string, maxWidth: int)
    requires WideWidth(s) <= maxWidth
    ensures WidePrefix(s, maxWidth) == s
  {
    if s != [] {
      var c := CharWidth(s[0]);
      assert [s[0]] + s[1..] == s;
      WideWidthSingle(s[0]);
      WideWidthAppend([s[0]], s[1..]);
      WidePrefixWhole(s[1..], maxWidth - c);
    }
  }

  /**
   * Where `sliceWidth` stops when it starts at index `i` with `maxWidth`
   * columns left: the index of the first code point that would overflow, or
   * the end.
   */
  function PrefixEnd(s: string, i: nat, maxWidth: int): (j: nat)
    requires i <= |s|
    ensures i <= j <= |s|
    decreases |s| - i
  {
    if i == |s| || CharWidth(s[i]) > maxWidth then i
    else PrefixEnd(s, i + 1, maxWidth - CharWidth(s[i]))
  }

  /** The prefix taken from index `i` on ends where `PrefixEnd` says. */
  lemma {:induction false} PrefixEndSlice(s: string, i: nat, maxWidth: int)
    requires i <= |s|
    ensures WidePrefix(s[i..], maxWidth) == s[i..PrefixEnd(s, i, maxWidth)]
    decreases |s| - i
  {
    if i < |s| {
      assert s[i..][0] == s[i];
      if CharWidth(s[i]) <= maxWidth {
        PrefixEndSlice(s, i + 1, maxWidth - CharWidth(s[i]));
        assert s[i..][1..] == s[i + 1..];
        assert s[i..PrefixEnd(s, i, maxWidth)] == [s[i]] + s[i + 1..PrefixEnd(s, i, maxWidth)];
      }
    }
  }

  /** `sliceWidth(s, maxWidth)`. */
  method SliceWidth(s: string, maxWidth: int) returns (r: string)
    ensures r == WidePrefix(s, maxWidth)
  {
    var width := 0;
    var i := 0;
    while i < |s|
      invariant 0 <= i <= |s|
      invariant PrefixEnd(s, i, maxWidth - width) == PrefixEnd(s, 0, maxWidth)
      decreases |s| - i
    {
      var w := CharWidth(s[i]);
      if width + w > maxWidth {
        break;
      }
      width := width + w;
      i := i + 1;
    }
    r := s[..i];
    PrefixEndSlice(s, 0, maxWidth);
    assert s[0..] == s;
  }

  // ---------------------------------------------------------------------
  // Stars
  // ---------------------------------------------------------------------

  /**
   * For a count in [1000, 10000) the double nearest `count / 1000` is an
   * integer significand over 2^(52 - e), where 2^e <= count / 1000 < 2^(e + 1)
   * (IEEE 754 binary64). This is the exact significand times 1000:
   * `count * 2^(52 - e)`.
   */
  function ScaledQuotient(count: int): nat
    requires 1000 <= count < 10000
  {
    if count < 2000 then count * 0x10_0000_0000_0000
    else if count < 4000 then count * 0x8_0000_0000_0000
    else if count < 8000 then count * 0x4_0000_0000_0000
    else count * 0x2_0000_0000_0000
  }

  /**
   * Whether the double nearest `count / 1000` is at least `count / 1000`:
   * its significand is the scaled quotient over 1000 rounded to nearest with
   * ties to even, so it is not below the quotient exactly when that rounding
   * does not go down.
   */
  predicate QuotientRoundsUp(count: int)
    requires 1000 <= count < 10000
  {
    var n := ScaledQuotient(count);
    var rem := n % 1000;
    rem == 0 || rem > 500 || (rem == 500 && (n / 1000) % 2 == 1)
  }

  /**
   * `(count / 1000).toFixed(1)` in tenths, for a count in [1000, 10000):
   * the tenth nearest the double, the larger one at an exact half. Only a
   * count ending in 50 lies on a half, and there the double's own rounding
   * decides.
   */
  function Tenths(count: int): (t: nat)
    requires 1000 <= count < 10000
    ensures 10 <= t <= 100
    ensures -50 <= t * 100 - count <= 50
    ensures count % 100 != 50 ==> t == (count + 50) / 100
  {
    if count % 100 != 50 || QuotientRoundsUp(count) then (count + 50) / 100 else (count - 50) / 100
  }

  /**
   * `formatStars(count)`: below 1000 the integer itself; from 1000 the
   * count in thousands with one decimal, and from 10000 with none, then `k`.
   */
  function FormatStars(count: int): (r: string)
    ensures count < 1000 ==> r == Decimal(count)
    ensures count >= 1000 ==> |r| >= 2 && r[|r| - 1] == 'k'
  {
    if count >= 1000 then
      if count >= 10000 then NatDecimal((count + 500) / 1000) + "k"
      else
        var t := Tenths(count);
        NatDecimal(t / 10) + "." + [DigitChar(t % 10)] + "k"
    else Decimal(count)
  }

  /** From 1000 to 9999 stars: the thousands with one decimal, within half a tenth of the count. */
  lemma FormatStarsThousands(count: int) returns (tenths: nat)
    requires 1000 <= count < 10000
    ensures FormatStars(count) == NatDecimal(tenths / 10) + "." + [DigitChar(tenths % 10)] + "k"
    ensures 10 <= tenths <= 100 && -50 <= tenths * 100 - count <= 50
  {
    tenths := Tenths(count);
  }

  /** From 10000 stars: the nearest whole thousand, halves rounded up, and no decimal point. */
  lemma FormatStarsLarge(count: int) returns (k: nat)
    requires count >= 10000
    ensures FormatStars(count) == NatDecimal(k) + "k"
    ensures k * 1000 - 500 <= count < k * 1000 + 500
    ensures '.' !in FormatStars(count)
  {
    k := (count + 500) / 1000;
    var r := FormatStars(count);
    assert forall i :: 0 <= i < |r| ==> IsDigit(r[i]) || r[i] == 'k';
  }

  /** A decimal point appears exactly for counts from 1000 to 9999. */
  lemma FormatStarsPoint(count: int)
    ensures '.' in FormatStars(count) <==> 1000 <= count < 10000
  {
    var r := FormatStars(count);
    if count < 1000 {
      if count < 0 {
        assert forall i :: 0 < i < |r| ==> IsDigit(r[i]);
      }
      assert forall i :: 0 <= i < |r| ==> IsDigit(r[i]) || r[i] == '-';
    } else if count >= 10000 {
      var _ := FormatStarsLarge(count);
    } else {
      var d := NatDecimal(Tenths(count) / 10);
      assert r[|d|] == '.';
    }
  }

  /** Below a thousand: the plain number. */
  lemma FormatStarsHundreds()
    ensures FormatStars(999) == "999"
  {
    assert NatDecimal(99) == "99";
  }

  /** 1500 is one and a half thousand exactly. */
  lemma FormatStarsOneAndAHalf()
    ensures FormatStars(1500) == "1.5k"
  {
  }

  /** 1150 / 1000 is just below 1.15 as a double, so it shows one decimal 1. */
  lemma FormatStarsBelowHalf()
    ensures FormatStars(1150) == "1.1k"
  {
    assert !QuotientRoundsUp(1150);
  }

  /** 1250 / 1000 is exactly 1.25, a half that goes to the larger tenth. */
  lemma FormatStarsExactHalf()
    ensures FormatStars(1250) == "1.3k"
  {
    assert QuotientRoundsUp(1250);
  }

  /** 9999 rounds up to ten thousand but keeps its decimal. */
  lemma FormatStarsJustBelowTenThousand()
    ensures FormatStars(9999) == "10.0k"
  {
    assert NatDecimal(10) == "10";
  }

  lemma FormatStarsTwelveThousand()
    ensures FormatStars(12000) == "12k"
  {
    assert NatDecimal(12) == "12";
  }

  // ---------------------------------------------------------------------
  // Age
  // ---------------------------------------------------------------------

  /** `Math.floor(ms / 1000)`: Dafny's division by a positive divisor rounds down. */
  function ElapsedSeconds(elapsedMs: int): int {
    elapsedMs / 1000
  }

  /**
   * `formatAge` given the milliseconds elapsed since the timestamp: whole
   * minutes below an hour, then hours, days, weeks, 30-day months and
   * 365-day years, each rounded down, then `" ago"`.
   */
  function FormatAge(elapsedMs: int): (r: string)
    ensures |r| > 4 && r[|r| - 4..] == " ago"
  {
    var seconds := ElapsedSeconds(elapsedMs);
    if seconds < 3600 then Decimal(seconds / 60) + "m ago"
    else if seconds < 86400 then Decimal(seconds / 3600) + "h ago"
    else if seconds < 604800 then Decimal(seconds / 86400) + "d ago"
    else if seconds < 2592000 then Decimal(seconds / 604800) + "w ago"
    else if seconds < 31536000 then Decimal(seconds / 2592000) + "mo ago"
    else Decimal(seconds / 31536000) + "y ago"
  }

  /** The units of age, shortest first: their length in seconds and their suffix. */
  const AGE_UNITS: seq<(int, string)> := [
    (60, "m"), (3600, "h"), (86400, "d"), (604800, "w"), (2592000, "mo"), (31536000, "y")
  ]

  /**
   * Each threshold is the length of the next unit, so the age is told in
   * the longest unit that fits into it (minutes when none does), as a
   * whole number of that unit.
   */
  lemma FormatAgeLongestUnit(elapsedMs: int) returns (i: nat)
    ensures i < |AGE_UNITS|
    ensures FormatAge(elapsedMs) == Decimal(ElapsedSeconds(elapsedMs) / AGE_UNITS[i].0) + AGE_UNITS[i].1 + " ago"
    ensures i == 0 || AGE_UNITS[i].0 <= ElapsedSeconds(elapsedMs)
    ensures i + 1 == |AGE_UNITS| || ElapsedSeconds(elapsedMs) < AGE_UNITS[i + 1].0
  {
    var s := ElapsedSeconds(elapsedMs);
    if s < 3600 {
      i := 0;
      assert Decimal(s / 60) + "m" + " ago" == Decimal(s / 60) + "m ago";
    } else if s < 86400 {
      i := 1;
      assert Decimal(s / 3600) + "h" + " ago" == Decimal(s / 3600) + "h ago";
    } else if s < 604800 {
      i := 2;
      assert Decimal(s / 86400) + "d" + " ago" == Decimal(s / 86400) + "d ago";
    } else if s < 2592000 {
      i := 3;
      assert Decimal(s / 604800) + "w" + " ago" == Decimal(s / 604800) + "w ago";
    } else if s < 31536000 {
      i := 4;
      assert Decimal(s / 2592000) + "mo" + " ago" == Decimal(s / 2592000) + "mo ago";
    } else {
      i := 5;
      assert Decimal(s / 31536000) + "y" + " ago" == Decimal(s / 31536000) + "y ago";
    }
  }

  /** Ten months are eight code points, one more than the age column holds. */
  lemma AgeOverflowsColumn()
    ensures FormatAge(10 * 2592000 * 1000) == "10mo ago"
    ensures |FormatAge(10 * 2592000 * 1000)| == 8 > COL_WIDTH.age
  {
    assert NatDecimal(10) == "10";
  }

  /** The colours and formats the table applies through `styleText`. */
  datatype Style = Cyan | Dim | Bold | Green | Yellow | Red

  /** The colour `ageColor` picks: green under a week, yellow under eight weeks, red from then on. */
  function AgeStyle(elapsedMs: int): (s: Style)
    ensures s == Green <==> elapsedMs < ONE_WEEK
    ensures s == Yellow <==> ONE_WEEK <= elapsedMs < EIGHT_WEEKS
    ensures s == Red <==> EIGHT_WEEKS <= elapsedMs
  {
    if elapsedMs < ONE_WEEK then Green
    else if elapsedMs < EIGHT_WEEKS then Yellow
    else Red
  }

  /** `ageColor(dateString, text)`, the styler standing for `styleText`. */
  function AgeColor(elapsedMs: int, text: string, style: (Style, string) -> string): (r: string)
    ensures elapsedMs < ONE_WEEK ==> r == style(Green, text)
    ensures ONE_WEEK <= elapsedMs < EIGHT_WEEKS ==> r == style(Yellow, text)
    ensures EIGHT_WEEKS <= elapsedMs ==> r == style(Red, text)
  {
    style(AgeStyle(elapsedMs), text)
  }

  /** Older is never greener. */
  lemma AgeStyleMonotone(a: int, b: int)
    requires a <= b
    ensures AgeStyle(b) == Green ==> AgeStyle(a) == Green
    ensures AgeStyle(a) == Red ==> AgeStyle(b) == Red
  {
  }

  /** Green is exactly the ages `formatAge` tells in minutes, hours or days. */
  lemma GreenIsUnderAWeek(elapsedMs: int)
    ensures AgeStyle(elapsedMs) == Green <==> ElapsedSeconds(elapsedMs) < 604800
  {
  }

  // ---------------------------------------------------------------------
  // Repository key and enrichment
  // ---------------------------------------------------------------------

  /** `url.split('/').slice(-2).join('/')`: the last two segments of a URL. */
  function RepoKey(url: string): (key: string)
    ensures exists i :: 0 <= i <= |url| && key == url[i..]
  {
    LastSegmentsSuffix(url);
    Join("/", LastTwo(Split(url, '/')))
  }

  /** The last two segments, joined again, are what follows some position of the URL. */
  lemma LastSegmentsSuffix(url: string)
    ensures exists i :: 0 <= i <= |url| && Join("/", LastTwo(Split(url, '/'))) == url[i..]
  {
    var i := LastSegmentsStart(url);
    assert Join("/", LastTwo(Split(url, '/'))) == url[i..];
  }

  /** Where the last two segments start. */
  lemma LastSegmentsStart(url: string) returns (i: nat)
    ensures i <= |url| && Join("/", LastTwo(Split(url, '/'))) == url[i..]
  {
    var parts := Split(url, '/');
    JoinSplit(url, '/');
    if |parts| <= 2 {
      i := 0;
    } else {
      var a := parts[..|parts| - 2];
      var b := parts[|parts| - 2..];
      assert parts == a + b;
      JoinAppend("/", a, b);
      i := |Join("/", a)| + 1;
      assert url == Join("/", a) + "/" + Join("/", b);
    }
  }

  /** For an API repository URL `…/owner/name` the key is `owner/name`. */
  lemma RepoKeyOfRepositoryUrl(base: string, owner: string, name: string)
    requires '/' !in owner && '/' !in name
    ensures RepoKey(base + "/" + owner + "/" + name) == owner + "/" + name
  {
    var url := base + "/" + owner + "/" + name;
    assert url == base + ['/'] + (owner + ['/'] + name);
    SplitAppend(base, owner + ['/'] + name, '/');
    SplitPrefix(owner, name, '/');
    SplitNoSep(name, '/');
    var parts := Split(base, '/') + [owner, name];
    assert Split(url, '/') == parts;
    assert LastTwo(parts) == [owner, name];
  }

  /** `[...new Set(xs)]`: the distinct elements in order of first occurrence. */
  function Dedup<T(==, !new)>(xs: seq<T>): (r: seq<T>)
    ensures forall x :: x in r <==> x in xs
    ensures forall i, j :: 0 <= i < j < |r| ==> r[i] != r[j]
  {
    if xs == [] then []
    else
      var init := xs[..|xs| - 1];
      assert xs == init + [xs[|xs| - 1]];
      var d := Dedup(init);
      if xs[|xs| - 1] in d then d else d + [xs[|xs| - 1]]
  }

  lemma DedupPush<T(!new)>(xs: seq<T>, x: T)
    ensures Dedup(xs + [x]) == if x in Dedup(xs) then Dedup(xs) else Dedup(xs) + [x]
  {
    assert (xs + [x])[..|xs|] == xs;
  }

  /** The position of the first occurrence of `x` in `xs`. */
  function FirstIndex<T(==, !new)>(xs: seq<T>, x: T): (i: nat)
    requires x in xs
    ensures i < |xs| && xs[i] == x && x !in xs[..i]
  {
    var init := xs[..|xs| - 1];
    assert xs == init + [xs[|xs| - 1]];
    if x in init then
      var i := FirstIndex(init, x);
      assert xs[..i] == init[..i];
      i
    else |xs| - 1
  }

  /** The distinct elements keep the order of their first occurrences. */
  lemma {:induction false} DedupFirstSeen<T(!new)>(xs: seq<T>)
    ensures forall i, j :: 0 <= i < j < |Dedup(xs)| ==> FirstIndex(xs, Dedup(xs)[i]) < FirstIndex(xs, Dedup(xs)[j])
  {
    if xs != [] {
      var init := xs[..|xs| - 1];
      var last := xs[|xs| - 1];
      var d := Dedup(init);
      var r := Dedup(xs);
      DedupFirstSeen(init);
      forall i, j | 0 <= i < j < |r|
        ensures FirstIndex(xs, r[i]) < FirstIndex(xs, r[j])
      {
        assert r[i] == d[i] && r[i] in init;
        assert FirstIndex(xs, r[i]) == FirstIndex(init, r[i]);
        if j < |d| {
          assert r[j] == d[j] && r[j] in init;
          assert FirstIndex(xs, r[j]) == FirstIndex(init, r[j]);
        } else {
          assert r[j] == last && last !in init;
        }
      }
    }
  }

  /** The repository key of each issue, in issue order. */
  function ItemKeys(items: seq<GitHubIssue>): seq<string> {
    seq(|items|, i requires 0 <= i < |items| => RepoKey(items[i].repository_url))
  }

  /** The keys `fetchRepoDetails` requests: each issue's key once, in order of first appearance. */
  function RepoKeys(items: seq<GitHubIssue>): seq<string> {
    Dedup(ItemKeys(items))
  }

  /** The map `fetchRepoDetails` returns: each requested key whose fetch succeeded, with the repository fetched. */
  function SuccessMap(keys: seq<string>, getRepository: string -> Result<GithubRepository, GitHubError>): (m: map<string, GithubRepository>)
    ensures forall k :: k in m <==> k in keys && getRepository(k).Success?
    ensures forall k :: k in m ==> m[k] == getRepository(k).value
  {
    map k | k in keys && getRepository(k).Success? :: getRepository(k).value
  }

  lemma SuccessMapPush(keys: seq<string>, k: string, getRepository: string -> Result<GithubRepository, GitHubError>)
    ensures SuccessMap(keys + [k], getRepository) ==
      if getRepository(k).Success? then SuccessMap(keys, getRepository)[k := getRepository(k).value]
      else SuccessMap(keys, getRepository)
  {
    var m := SuccessMap(keys + [k], getRepository);
    var m0 := SuccessMap(keys, getRepository);
    assert forall x :: x in keys + [k] <==> x in keys || x == k;
    if getRepository(k).Success? {
      assert m.Keys == m0[k := getRepository(k).value].Keys;
    } else {
      assert m.Keys == m0.Keys;
    }
  }

  /** One more fetch: a success adds its entry to the map, a failure leaves the map as it was. */
  lemma FetchStep(repoMap: map<string, GithubRepository>, requested: seq<string>, key: string,
    result: Result<GithubRepository, GitHubError>, getRepository: string -> Result<GithubRepository, GitHubError>)
    requires repoMap == SuccessMap(requested, getRepository) && result == getRepository(key)
    ensures SuccessMap(requested + [key], getRepository) ==
      if result.Success? then repoMap[key := result.value] else repoMap
  {
    SuccessMapPush(requested, key, getRepository);
  }

  /**
   * `new Set(items.map(...))` spread into an array: the keys of the issues,
   * then each kept at its first occurrence.
   */
  method UniqueRepoKeys(items: seq<GitHubIssue>) returns (keys: seq<string>)
    ensures keys == RepoKeys(items)
  {
    keys := Distinct(ItemKeys(items));
  }

  /** The spread of a `Set` built from `all`: each element kept at its first occurrence. */
  method Distinct(all: seq<string>) returns (keys: seq<string>)
    ensures keys == Dedup(all)
  {
    keys := [];
    for i := 0 to |all|
      invariant keys == Dedup(all[..i])
    {
      var key := all[i];
      assert all[..i + 1] == all[..i] + [key];
      DedupPush(all[..i], key);
      if key !in keys {
        keys := keys + [key];
      }
    }
    assert all[..|all|] == all;
  }

  /**
   * `fetchRepoDetails(client, items)`, the concurrent fetches taken one
   * after another: one `getRepository` call per distinct key, in order of
   * first appearance, and a map of exactly the keys whose call succeeded.
   * `requested` records the keys passed to `getRepository`, in call order.
   */
  method FetchRepoDetails(items: seq<GitHubIssue>, getRepository: string -> Result<GithubRepository, GitHubError>)
    returns (repoMap: map<string, GithubRepository>, requested: seq<string>)
    ensures requested == RepoKeys(items)
    ensures repoMap == SuccessMap(requested, getRepository)
  {
    var keys := UniqueRepoKeys(items);
    repoMap, requested := FetchEach(keys, getRepository);
  }

  /**
   * The fan-out over the unique keys and the filter of the failures: one
   * call per key, in key order, keeping each key whose call succeeded.
   */
  method FetchEach(keys: seq<string>, getRepository: string -> Result<GithubRepository, GitHubError>)
    returns (repoMap: map<string, GithubRepository>, requested: seq<string>)
    ensures requested == keys
    ensures repoMap == SuccessMap(keys, getRepository)
  {
    repoMap := map[];
    requested := [];
    for j := 0 to |keys|
      invariant requested == keys[..j]
      invariant repoMap == SuccessMap(requested, getRepository)
    {
      var key := keys[j];
      var result := getRepository(key);
      FetchStep(repoMap, requested, key, result, getRepository);
      if result.Success? {
        repoMap := repoMap[key := result.value];
      }
      assert keys[..j + 1] == requested + [key];
      requested := requested + [key];
    }
    assert keys[..|keys|] == keys;
  }

  /**
   * `buildIssueItem(issue, repoMap)`: the issue unchanged, with the
   * repository found under its key or, for a missing repository or a
   * missing field, the sentinels `0` stars and `-` for the text fields.
   */
  function BuildIssueItem(issue: GitHubIssue, repoMap: map<string, GithubRepository>): (r: IssueWithRepo)
    ensures r.issue == issue
    ensures r.repo.stargazers_count.Some? && r.repo.fill_name.Some? && r.repo.language.Some? && r.repo.description.Some?
  {
    var key := RepoKey(issue.repository_url);
    if key in repoMap then
      var repo := repoMap[key];
      IssueWithRepo(issue, GithubRepository(
        Some(repo.stargazers_count.GetOr(0)),
        Some(repo.fill_name.GetOr("-")),
        Some(repo.language.GetOr("-")),
        Some(repo.description.GetOr("-"))))
    else
      IssueWithRepo(issue, GithubRepository(Some(0), Some("-"), Some("-"), Some("-")))
  }

  /** A repository field that was fetched is copied; every other one is its sentinel. */
  lemma BuildIssueItemFields(issue: GitHubIssue, repoMap: map<string, GithubRepository>)
    ensures var key := RepoKey(issue.repository_url);
      var r := BuildIssueItem(issue, repoMap).repo;
      (key in repoMap && repoMap[key].language.Some? ==> r.language == repoMap[key].language)
      && (key in repoMap && repoMap[key].stargazers_count.Some? ==> r.stargazers_count == repoMap[key].stargazers_count)
      && (key in repoMap && repoMap[key].fill_name.Some? ==> r.fill_name == repoMap[key].fill_name)
      && (key in repoMap && repoMap[key].description.Some? ==> r.description == repoMap[key].description)
      && (key !in repoMap ==> r == GithubRepository(Some(0), Some("-"), Some("-"), Some("-")))
  {
  }

  // ---------------------------------------------------------------------
  // Labels and language
  // ---------------------------------------------------------------------

  /** `determineLabels(cliFlags)`: the default labels, then any given with `--labels`, in order. */
  function DetermineLabels(flags: CliFlags): (r: seq<string>)
    ensures |r| == |DEFAULT_LABELS| + |flags.labels.GetOr([])|
    ensures r[..|DEFAULT_LABELS|] == DEFAULT_LABELS
    ensures r[|DEFAULT_LABELS|..] == flags.labels.GetOr([])
  {
    if flags.labels.Some? then DEFAULT_LABELS + flags.labels.value else DEFAULT_LABELS
  }

  predicate EndsWith(s: string, suffix: string) {
    |suffix| <= |s| && s[|s| - |suffix|..] == suffix
  }

  /**
   * `determineLanguage(cliFlags)` over the names in the working directory:
   * a non-empty `--language` wins; otherwise the first project marker found
   * names the language, and no marker leaves it undefined.
   */
  function DetermineLanguage(flags: CliFlags, files: set<string>): (r: Option<string>)
    ensures Truthy(flags.language) ==> r == flags.language
    ensures r.Some? <==> Truthy(r)
  {
    if Truthy(flags.language) then flags.language
    else if "tsconfig.json" in files && "package.json" in files then Some("typescript")
    else if "package.json" in files then Some("javascript")
    else if "Cargo.toml" in files then Some("rust")
    else if "go.mod" in files then Some("go")
    else if exists f :: f in files && EndsWith(f, ".csproj") then Some("c#")
    else if "pyproject.toml" in files || "requirements.txt" in files then Some("python")
    else if "Gemfile" in files then Some("ruby")
    else if "pom.xml" in files || "build.gradle" in files then Some("java")
    else if "mix.exs" in files then Some("elixir")
    else if "Package.swift" in files then Some("swift")
    else None
  }

  /** What a language rule looks for among the file names. */
  datatype Marker = File(name: string) | BothFiles(a: string, b: string) | EitherFile(a: string, b: string) | NameEndingIn(suffix: string)

  predicate Matches(m: Marker, files: set<string>) {
    match m
    case File(n) => n in files
    case BothFiles(a, b) => a in files && b in files
    case EitherFile(a, b) => a in files || b in files
    case NameEndingIn(x) => exists f :: f in files && EndsWith(f, x)
  }

  /** The language rules in the order they are tried. */
  const LANGUAGE_RULES: seq<(Marker, string)> := [
    (BothFiles("tsconfig.json", "package.json"), "typescript"),
    (File("package.json"), "javascript"),
    (File("Cargo.toml"), "rust"),
    (File("go.mod"), "go"),
    (NameEndingIn(".csproj"), "c#"),
    (EitherFile("pyproject.toml", "requirements.txt"), "python"),
    (File("Gemfile"), "ruby"),
    (EitherFile("pom.xml", "build.gradle"), "java"),
    (File("mix.exs"), "elixir"),
    (File("Package.swift"), "swift")
  ]

  /** The language of the first rule from position `i` on that matches, if any. */
  function FirstMatch(rules: seq<(Marker, string)>, i: nat, files: set<string>): (r: Option<string>)
    requires i <= |rules|
    ensures r.None? <==> forall j :: i <= j < |rules| ==> !Matches(rules[j].0, files)
    decreases |rules| - i
  {
    if i == |rules| then None
    else if Matches(rules[i].0, files) then Some(rules[i].1)
    else FirstMatch(rules, i + 1, files)
  }

  /** The last three rules, from the Java one on. */
  lemma {:induction false} LanguageRulesFromJava(files: set<string>)
    ensures FirstMatch(LANGUAGE_RULES, 7, files) ==
      if "pom.xml" in files || "build.gradle" in files then Some("java")
      else if "mix.exs" in files then Some("elixir")
      else if "Package.swift" in files then Some("swift")
      else None
  {
    var rs := LANGUAGE_RULES;
    assert FirstMatch(rs, 10, files) == None;
    assert FirstMatch(rs, 9, files) == if "Package.swift" in files then Some("swift") else None;
    assert FirstMatch(rs, 8, files) == if "mix.exs" in files then Some("elixir") else FirstMatch(rs, 9, files);
  }

  /** The last six rules, from the C# one on. */
  lemma {:induction false} LanguageRulesFromCSharp(files: set<string>)
    ensures FirstMatch(LANGUAGE_RULES, 4, files) ==
      if exists f :: f in files && EndsWith(f, ".csproj") then Some("c#")
      else if "pyproject.toml" in files || "requirements.txt" in files then Some("python")
      else if "Gemfile" in files then Some("ruby")
      else FirstMatch(LANGUAGE_RULES, 7, files)
  {
    var rs := LANGUAGE_RULES;
    assert FirstMatch(rs, 6, files) == if "Gemfile" in files then Some("ruby") else FirstMatch(rs, 7, files);
    assert FirstMatch(rs, 5, files) ==
      if "pyproject.toml" in files || "requirements.txt" in files then Some("python") else FirstMatch(rs, 6, files);
  }

  /** Without a language flag the decision is the first rule of the table that matches. */
  lemma {:induction false} DetermineLanguageByRules(flags: CliFlags, files: set<string>)
    ensures DetermineLanguage(flags, files) ==
      if Truthy(flags.language) then flags.language else FirstMatch(LANGUAGE_RULES, 0, files)
  {
    LanguageRulesFromStart(files);
    LanguageRulesFromCSharp(files);
    LanguageRulesFromJava(files);
  }

  /** The first four rules. */
  lemma {:induction false} LanguageRulesFromStart(files: set<string>)
    ensures FirstMatch(LANGUAGE_RULES, 0, files) ==
      if "tsconfig.json" in files && "package.json" in files then Some("typescript")
      else if "package.json" in files then Some("javascript")
      else if "Cargo.toml" in files then Some("rust")
      else if "go.mod" in files then Some("go")
      else FirstMatch(LANGUAGE_RULES, 4, files)
  {
    var rs := LANGUAGE_RULES;
    assert FirstMatch(rs, 3, files) == if "go.mod" in files then Some("go") else FirstMatch(rs, 4, files);
    assert FirstMatch(rs, 2, files) == if "Cargo.toml" in files then Some("rust") else FirstMatch(rs, 3, files);
    assert FirstMatch(rs, 1, files) == if "package.json" in files then Some("javascript") else FirstMatch(rs, 2, files);
  }
}
