/**
 * Width-aware padding and truncation shared by the commands
 * (packages/cli/src/commands/utils.ts). The zero-width test the width count
 * consults is not defined in the code it is imported from, so it is a
 * parameter `zeroWidth` on code points here.
 */
module CommandUtils {
  import opened JsText
  import opened FindUtils

  /** The columns of one code point: none when zero-width (tested first), else two when wide, else one. */
  function CodeWidth(zeroWidth: int -> bool, c: char): (w: nat)
    ensures w == 0 <==> zeroWidth(c as int)
    ensures !zeroWidth(c as int) ==> w == CharWidth(c)
  {
    if zeroWidth(c as int) then 0 else if IsWide(c as int) then 2 else 1
  }

  /**
   * The display width `displayWidth` computes. It never exceeds the count
   * `sliceWidth` uses, which takes zero-width code points as one column.
   */
  function Width(zeroWidth: int -> bool, s: string): (w: nat)
    ensures w <= WideWidth(s)
  {
    if s == [] then 0 else Width(zeroWidth, s[..|s| - 1]) + CodeWidth(zeroWidth, s[|s| - 1])
  }

  /** `displayWidth(str)`. */
  method DisplayWidth(zeroWidth: int -> bool, s: string) returns (width: nat)
    ensures width == Width(zeroWidth, s)
  {
    width := 0;
    for i := 0 to |s|
      invariant width == Width(zeroWidth, s[..i])
    {
      assert s[..i + 1][..i] == s[..i];
      width := width + CodeWidth(zeroWidth, s[i]);
    }
    assert s[..|s|] == s;
  }

  lemma {:induction false} WidthAppend(zeroWidth: int -> bool, a: string, b: string)
    ensures Width(zeroWidth, a + b) == Width(zeroWidth, a) + Width(zeroWidth, b)
  {
    if b == [] {
      assert a + b == a;
    } else {
      WidthAppend(zeroWidth, a, b[..|b| - 1]);
      assert (a + b)[..|a + b| - 1] == a + b[..|b| - 1];
    }
  }

  /** Where nothing is zero-width, the display width is the `sliceWidth` count. */
  lemma {:induction false} WidthWithoutZeroWidth(zeroWidth: int -> bool, s: string)
    requires forall i :: 0 <= i < |s| ==> !zeroWidth(s[i] as int)
    ensures Width(zeroWidth, s) == WideWidth(s)
  {
    if s != [] {
      WidthWithoutZeroWidth(zeroWidth, s[..|s| - 1]);
    }
  }

  /** A run of spaces is as wide as it is long, unless a space is zero-width. */
  lemma SpacesWidth(zeroWidth: int -> bool, n: nat)
    requires !zeroWidth(' ' as int)
    ensures Width(zeroWidth, Repeat(' ', n)) == n
  {
    var sp := Repeat(' ', n);
    WidthWithoutZeroWidth(zeroWidth, sp);
    WideWidthNarrow(sp);
  }

  /** `padEnd(str, width)`: spaces after `str` up to the target width, nothing when it is already that wide. */
  function PadEnd(zeroWidth: int -> bool, s: string, width: int): (r: string)
    ensures |r| >= |s| && r[..|s|] == s
    ensures forall i :: |s| <= i < |r| ==> r[i] == ' '
    ensures Width(zeroWidth, s) >= width ==> r == s
  {
    var diff := width - Width(zeroWidth, s);
    if diff > 0 then s + Repeat(' ', diff) else s
  }

  /** `padStart(str, width)`: spaces before `str` up to the target width. */
  function PadStart(zeroWidth: int -> bool, s: string, width: int): (r: string)
    ensures |r| >= |s| && r[|r| - |s|..] == s
    ensures forall i :: 0 <= i < |r| - |s| ==> r[i] == ' '
    ensures Width(zeroWidth, s) >= width ==> r == s
  {
    var diff := width - Width(zeroWidth, s);
    if diff > 0 then Repeat(' ', diff) + s else s
  }

  /** Padding brings the width up to the target and no further, when spaces take a column. */
  lemma PadWidth(zeroWidth: int -> bool, s: string, width: int)
    requires !zeroWidth(' ' as int)
    ensures Width(zeroWidth, PadEnd(zeroWidth, s, width)) == Max(width, Width(zeroWidth, s))
    ensures Width(zeroWidth, PadStart(zeroWidth, s, width)) == Max(width, Width(zeroWidth, s))
  {
    var diff := width - Width(zeroWidth, s);
    if diff > 0 {
      SpacesWidth(zeroWidth, diff);
      WidthAppend(zeroWidth, s, Repeat(' ', diff));
      WidthAppend(zeroWidth, Repeat(' ', diff), s);
    }
  }

  function Max(a: int, b: int): int {
    if a >= b then a else b
  }

  /**
   * `truncate(str, maxWidth)`: the string itself when it fits, else the
   * widest prefix leaving room for an ellipsis, then `"..."`.
   */
  function Truncate(zeroWidth: int -> bool, s: string, maxWidth: int): (r: string)
    ensures Width(zeroWidth, s) <= maxWidth ==> r == s
    ensures Width(zeroWidth, s) > maxWidth ==> r == WidePrefix(s, maxWidth - 3) + "..."
  {
    if Width(zeroWidth, s) <= maxWidth then s else WidePrefix(s, maxWidth - 3) + "..."
  }

  /**
   * With room for the ellipsis the result fits: the prefix is cut by the
   * `sliceWidth` count, which never undercounts the display width.
   */
  lemma TruncateFits(zeroWidth: int -> bool, s: string, maxWidth: int)
    requires maxWidth >= 3
    ensures Width(zeroWidth, Truncate(zeroWidth, s, maxWidth)) <= maxWidth
  {
    if Width(zeroWidth, s) > maxWidth {
      var p := WidePrefix(s, maxWidth - 3);
      WidePrefixWidth(s, maxWidth - 3);
      WidthAppend(zeroWidth, p, "...");
      WideWidthNarrow("...");
    }
  }

  /** Truncating twice is truncating once. */
  lemma TruncateIdempotent(zeroWidth: int -> bool, s: string, maxWidth: int)
    requires maxWidth >= 3
    ensures Truncate(zeroWidth, Truncate(zeroWidth, s, maxWidth), maxWidth) == Truncate(zeroWidth, s, maxWidth)
  {
    TruncateFits(zeroWidth, s, maxWidth);
  }

  /** A cell truncated and then padded to the same width is exactly that wide. */
  lemma PadTruncatedExact(zeroWidth: int -> bool, s: string, width: int)
    requires width >= 3 && !zeroWidth(' ' as int)
    ensures Width(zeroWidth, PadEnd(zeroWidth, Truncate(zeroWidth, s, width), width)) == width
  {
    TruncateFits(zeroWidth, s, width);
    PadWidth(zeroWidth, Truncate(zeroWidth, s, width), width);
  }

  /** A width-bounded prefix padded to that width is exactly that wide. */
  lemma PadPrefixExact(zeroWidth: int -> bool, s: string, width: nat)
    requires !zeroWidth(' ' as int)
    ensures Width(zeroWidth, PadEnd(zeroWidth, WidePrefix(s, width), width)) == width
  {
    WidePrefixWidth(s, width);
    PadWidth(zeroWidth, WidePrefix(s, width), width);
  }

  /** ASCII text without zero-width code points is one column per code point. */
  lemma {:induction false} AsciiWidth(zeroWidth: int -> bool, s: string)
    requires forall i :: 0 <= i < |s| ==> (s[i] as int) < 0x80 && !zeroWidth(s[i] as int)
    ensures Width(zeroWidth, s) == |s|
  {
    WidthWithoutZeroWidth(zeroWidth, s);
    WideWidthNarrow(s);
  }
}
