/**
 * The earlier results table (packages/cli/src/formatter.ts). It takes the
 * plain issues and the repository map, looks each issue's repository up by
 * its key, and shows the issue's own number in the `#` column. It keeps
 * private copies of the width helpers: its width count knows no zero-width
 * code points, and nothing is styled. Its `sliceWidth`, `formatStars` and
 * `formatAge` are the same code as the `find` command's and are modelled
 * once, in `FindUtils`; the clock is a parameter `elapsed` giving the
 * milliseconds since a timestamp.
 */
module Formatter {
  import opened Nullish
  import opened JsText
  import opened GitHubTypes
  import opened FindConstants
  import FindUtils
  import FindFormatter
  import CommandUtils

  /** `COL`: the column widths, the same values as the `find` command's. */
  const COL := ColumnWidths(6, 30, 12, 6, 40, 7, 8)

  /** `colWidths()`: the column widths in display order. */
  const COL_WIDTHS: seq<nat> := [COL.repo, COL.language, COL.stars, COL.issue, COL.title, COL.age, COL.comments]

  lemma ColumnsAsInFind()
    ensures COL == COL_WIDTH && COL_WIDTHS == FindFormatter.COL_WIDTHS
  {
  }

  // ---------------------------------------------------------------------
  // Display width
  // ---------------------------------------------------------------------

  /** The private `isWide(code)`: seventeen code-point ranges drawn two columns wide. */
  predicate IsWide(code: int)
    ensures IsWide(code) ==> 0x1100 <= code <= 0x3FFFD
  {
    (0x1100 <= code <= 0x115F)
    || (0x2E80 <= code <= 0x303E)
    || (0x3040 <= code <= 0x33BF)
    || (0x3400 <= code <= 0x4DBF)
    || (0x4E00 <= code <= 0xA4CF)
    || (0xAC00 <= code <= 0xD7AF)
    || (0xF900 <= code <= 0xFAFF)
    || (0xFE30 <= code <= 0xFE6F)
    || (0xFF01 <= code <= 0xFF60)
    || (0xFFE0 <= code <= 0xFFE6)
    || (0x20000 <= code <= 0x2FFFD)
    || (0x30000 <= code <= 0x3FFFD)
    || (0x1F300 <= code <= 0x1F9FF)
    || (0x1FA00 <= code <= 0x1FA6F)
    || (0x1FA70 <= code <= 0x1FAFF)
    || (0x2600 <= code <= 0x27BF)
    || (0x231A <= code <= 0x23F3)
  }

  /** The private table is the `find` command's table, range for range. */
  lemma IsWideAgrees(code: int)
    ensures IsWide(code) == FindUtils.IsWide(code)
  {
  }

  /**
   * `displayWidth(str)`: two columns per wide code point and one for every
   * other, zero-width marks included, so it is the count `sliceWidth` uses.
   */
  method DisplayWidth(s: string) returns (width: nat)
    ensures width == FindUtils.WideWidth(s)
  {
    width := 0;
    for i := 0 to |s|
      invariant width == FindUtils.WideWidth(s[..i])
    {
      assert s[..i + 1][..i] == s[..i];
      IsWideAgrees(s[i] as int);
      width := width + if IsWide(s[i] as int) then 2 else 1;
    }
    assert s[..|s|] == s;
  }

  /** A string of Hangul syllables is two columns per syllable. */
  lemma {:induction false} HangulWidth(s: string)
    requires forall i :: 0 <= i < |s| ==> 0xAC00 <= s[i] as int <= 0xD7AF
    ensures FindUtils.WideWidth(s) == 2 * |s|
  {
    if s != [] {
      HangulWidth(s[..|s| - 1]);
    }
  }

  /** A run of spaces is as wide as it is long. */
  lemma SpacesWidth(n: nat)
    ensures FindUtils.WideWidth(Repeat(' ', n)) == n
  {
    FindUtils.WideWidthNarrow(Repeat(' ', n));
  }

  function Max(a: int, b: int): int {
    if a >= b then a else b
  }

  /** `padEnd(str, width)`: `str` followed by spaces up to the target width, if it is narrower. */
  function PadEnd(s: string, width: int): (r: string)
    ensures |r| >= |s| && r[..|s|] == s
    ensures forall i :: |s| <= i < |r| ==> r[i] == ' '
    ensures FindUtils.WideWidth(r) == Max(width, FindUtils.WideWidth(s))
  {
    var diff := width - FindUtils.WideWidth(s);
    if diff > 0 then
      SpacesWidth(diff);
      FindUtils.WideWidthAppend(s, Repeat(' ', diff));
      s + Repeat(' ', diff)
    else s
  }

  /** `padStart(str, width)`: spaces up to the target width, then `str`. */
  function PadStart(s: string, width: int): (r: string)
    ensures |r| >= |s| && r[|r| - |s|..] == s
    ensures forall i :: 0 <= i < |r| - |s| ==> r[i] == ' '
    ensures FindUtils.WideWidth(r) == Max(width, FindUtils.WideWidth(s))
  {
    var diff := width - FindUtils.WideWidth(s);
    if diff > 0 then
      SpacesWidth(diff);
      FindUtils.WideWidthAppend(Repeat(' ', diff), s);
      Repeat(' ', diff) + s
    else s
  }

  /**
   * `truncate(str, maxWidth)`: the string itself when it fits; otherwise the
   * widest prefix within `maxWidth - 3` columns and `"..."`, which fits
   * whenever there is room for the ellipsis.
   */
  function Truncate(s: string, maxWidth: int): (r: string)
    ensures FindUtils.WideWidth(s) <= maxWidth ==> r == s
    ensures FindUtils.WideWidth(s) > maxWidth ==>
      r == FindUtils.WidePrefix(s, maxWidth - 3) + "..." && r[..|r| - 3] <= s
    ensures maxWidth >= 3 ==> FindUtils.WideWidth(r) <= maxWidth
  {
    if FindUtils.WideWidth(s) <= maxWidth then s
    else
      var p := FindUtils.WidePrefix(s, maxWidth - 3);
      FindUtils.WidePrefixIsPrefix(s, maxWidth - 3);
      assert (p + "...")[..|p|] == p;
      CutFits(s, maxWidth);
      p + "..."
  }

  /** The cut prefix and the ellipsis together fit in `maxWidth` columns. */
  lemma CutFits(s: string, maxWidth: int)
    ensures maxWidth >= 3 ==> FindUtils.WideWidth(FindUtils.WidePrefix(s, maxWidth - 3) + "...") <= maxWidth
  {
    if maxWidth >= 3 {
      FindUtils.WidePrefixWidth(s, maxWidth - 3);
      FindUtils.WideWidthAppend(FindUtils.WidePrefix(s, maxWidth - 3), "...");
      FindUtils.WideWidthNarrow("...");
    }
  }

  /** Truncating twice is truncating once, when there is room for the ellipsis. */
  lemma TruncateIdempotent(s: string, maxWidth: int)
    requires maxWidth >= 3
    ensures Truncate(Truncate(s, maxWidth), maxWidth) == Truncate(s, maxWidth)
  {
  }

  // ---------------------------------------------------------------------
  // Borders, header and rows
  // ---------------------------------------------------------------------

  /** A border: a corner, the per-column runs of `─` joined by the junction, a corner. */
  function Border(left: char, junction: char, right: char): string {
    [left] + Join([junction], FindFormatter.Runs(COL_WIDTHS)) + [right]
  }

  /** `topBorder()`. */
  function TopBorder(): string {
    Border('┌', '┬', '┐')
  }

  /** `separator()`. */
  function Separator(): string {
    Border('├', '┼', '┤')
  }

  /** `bottomBorder()`. */
  function BottomBorder(): string {
    Border('└', '┴', '┘')
  }

  /** The three borders have one shape and one length, 131, the same lines as the `find` command's. */
  lemma BordersAgree()
    ensures TopBorder() == FindFormatter.TopBorder() && Separator() == FindFormatter.Separator()
    ensures BottomBorder() == FindFormatter.BottomBorder()
    ensures |TopBorder()| == |Separator()| == |BottomBorder()| == 131
  {
    assert TopBorder() == FindFormatter.TopBorder();
  }

  /** The header label of column k, padded to the column: the same labels and alignment as the `find` command's. */
  function HeaderCell(k: nat): string
    requires k < 7
  {
    if FindFormatter.HEADER_PAD_END[k] then PadEnd(FindFormatter.HEADER_LABELS[k], COL_WIDTHS[k])
    else PadStart(FindFormatter.HEADER_LABELS[k], COL_WIDTHS[k])
  }

  /** `headerRow()`: the labels padded to their columns, unstyled. */
  function HeaderCells(): (h: seq<string>)
    ensures |h| == 7
  {
    [HeaderCell(0), HeaderCell(1), HeaderCell(2), HeaderCell(3), HeaderCell(4), HeaderCell(5), HeaderCell(6)]
  }

  function HeaderRow(): string {
    FindFormatter.Row(HeaderCells())
  }

  /** A row of seven cells is as wide as its cells, plus three between neighbours and two at each end. */
  lemma RowWideWidth(cells: seq<string>)
    requires |cells| == 7
    ensures FindUtils.WideWidth(FindFormatter.Row(cells)) ==
      FindUtils.WideWidth(cells[0]) + FindUtils.WideWidth(cells[1]) + FindUtils.WideWidth(cells[2])
      + FindUtils.WideWidth(cells[3]) + FindUtils.WideWidth(cells[4]) + FindUtils.WideWidth(cells[5])
      + FindUtils.WideWidth(cells[6]) + 22
  {
    var noZeroWidth := (code: int) => false;
    FindFormatter.RowWidth(noZeroWidth, cells);
    FindFormatter.JoinedWidthSeven(noZeroWidth, " │ ", cells);
    CommandUtils.WidthWithoutZeroWidth(noZeroWidth, FindFormatter.Row(cells));
    CommandUtils.WidthWithoutZeroWidth(noZeroWidth, cells[0]);
    CommandUtils.WidthWithoutZeroWidth(noZeroWidth, cells[1]);
    CommandUtils.WidthWithoutZeroWidth(noZeroWidth, cells[2]);
    CommandUtils.WidthWithoutZeroWidth(noZeroWidth, cells[3]);
    CommandUtils.WidthWithoutZeroWidth(noZeroWidth, cells[4]);
    CommandUtils.WidthWithoutZeroWidth(noZeroWidth, cells[5]);
    CommandUtils.WidthWithoutZeroWidth(noZeroWidth, cells[6]);
  }

  /** Every header label fits its column, so padding makes it exactly as wide as the column. */
  lemma HeaderCellWidth(k: nat)
    requires k < 7
    ensures FindUtils.WideWidth(HeaderCell(k)) == COL_WIDTHS[k]
  {
    FindFormatter.HeaderLabelsFit(k);
    FindFormatter.AsciiCodes(FindFormatter.HEADER_LABELS[k]);
    FindUtils.WideWidthNarrow(FindFormatter.HEADER_LABELS[k]);
  }

  /** The header is exactly as wide as the borders are long. */
  lemma HeaderWidth()
    ensures FindUtils.WideWidth(HeaderRow()) == |TopBorder()|
  {
    var h := HeaderCells();
    HeaderCellWidth(0);
    HeaderCellWidth(1);
    HeaderCellWidth(2);
    HeaderCellWidth(3);
    HeaderCellWidth(4);
    HeaderCellWidth(5);
    HeaderCellWidth(6);
    RowWideWidth(h);
    BordersAgree();
  }

  /** The repository cell: the key truncated and padded. */
  function RepoCell(issue: GitHubIssue): string {
    PadEnd(Truncate(FindUtils.RepoKey(issue.repository_url), COL.repo), COL.repo)
  }

  /** `repo?.language ?? '-'`, cut to the column and padded. */
  function LanguageCell(repo: Option<GithubRepository>): string {
    var language := if repo.Some? then repo.value.language.GetOr("-") else "-";
    PadEnd(FindUtils.WidePrefix(language, COL.language), COL.language)
  }

  /** `repo?.stargazers_count ?? 0`, formatted and right-aligned. */
  function StarsCell(repo: Option<GithubRepository>): string {
    var stars := if repo.Some? then repo.value.stargazers_count.GetOr(0) else 0;
    PadStart(FindUtils.FormatStars(stars), COL.stars)
  }

  /** `#<number>`: the issue's own number, right-aligned. */
  function NumberCell(issue: GitHubIssue): string {
    PadStart("#" + Decimal(issue.number), COL.issue)
  }

  function TitleCell(issue: GitHubIssue): string {
    PadEnd(Truncate(issue.title, COL.title), COL.title)
  }

  function AgeCell(elapsed: string -> int, issue: GitHubIssue): string {
    PadStart(FindUtils.FormatAge(elapsed(issue.created_at)), COL.age)
  }

  function CommentsCell(issue: GitHubIssue): string {
    PadStart(Decimal(issue.comments), COL.comments)
  }

  /** The cells of `formatIssueRow(issue, repo)`. */
  function IssueCells(elapsed: string -> int, issue: GitHubIssue, repo: Option<GithubRepository>): (c: seq<string>)
    ensures |c| == 7
  {
    [RepoCell(issue), LanguageCell(repo), StarsCell(repo), NumberCell(issue), TitleCell(issue),
      AgeCell(elapsed, issue), CommentsCell(issue)]
  }

  function FormatIssueRow(elapsed: string -> int, issue: GitHubIssue, repo: Option<GithubRepository>): string {
    FindFormatter.Row(IssueCells(elapsed, issue, repo))
  }

  /** `repoMap.get(key)`. */
  function Lookup(repoMap: map<string, GithubRepository>, key: string): (r: Option<GithubRepository>)
    ensures r.Some? <==> key in repoMap
    ensures r.Some? ==> r.value == repoMap[key]
  {
    if key in repoMap then Some(repoMap[key]) else None
  }

  /** The footer line. */
  function Footer(n: int): string {
    "Showing " + Decimal(n) + " issues. Run good-first-issue open <n> to open in browser."
  }

  /** The row of one issue, with the repository found under its key; the position is not shown. */
  function RowFormat(elapsed: string -> int, repoMap: map<string, GithubRepository>): (GitHubIssue, int) -> string {
    (issue: GitHubIssue, position: int) => FormatIssueRow(elapsed, issue, Lookup(repoMap, FindUtils.RepoKey(issue.repository_url)))
  }

  /** `issues.map(...)`: each issue's row, with the repository found under its key. */
  function IssueRows(elapsed: string -> int, issues: seq<GitHubIssue>, repoMap: map<string, GithubRepository>): (rows: seq<string>)
    ensures |rows| == |issues|
  {
    FindFormatter.Rows(RowFormat(elapsed, repoMap), issues, 1)
  }

  /** Row i is issue i's, with the repository found under issue i's key. */
  lemma IssueRowsAt(elapsed: string -> int, issues: seq<GitHubIssue>, repoMap: map<string, GithubRepository>, i: int)
    requires 0 <= i < |issues|
    ensures IssueRows(elapsed, issues, repoMap)[i] ==
      FormatIssueRow(elapsed, issues[i], Lookup(repoMap, FindUtils.RepoKey(issues[i].repository_url)))
  {
    FindFormatter.RowsAt(RowFormat(elapsed, repoMap), issues, 1, i);
  }

  /** The lines of a table around its rows: top border, header, separator, the rows, bottom border, a blank line, the footer. */
  function Framed(top: string, header: string, separator: string, rows: seq<string>, bottom: string, footer: string): (lines: seq<string>)
    ensures |lines| == |rows| + 6
    ensures lines[..3] == [top, header, separator] && lines[3..|rows| + 3] == rows
    ensures lines[|rows| + 3..] == [bottom, "", footer]
  {
    [top, header, separator] + rows + [bottom, "", footer]
  }

  /** The lines of `formatTable(issues, repoMap)`. */
  function TableLines(elapsed: string -> int, issues: seq<GitHubIssue>, repoMap: map<string, GithubRepository>): seq<string> {
    Framed(TopBorder(), HeaderRow(), Separator(), IssueRows(elapsed, issues, repoMap), BottomBorder(), Footer(|issues|))
  }

  /** `formatTable(issues, repoMap)`: the lines joined by newlines. */
  function FormatTable(elapsed: string -> int, issues: seq<GitHubIssue>, repoMap: map<string, GithubRepository>): string {
    Join("\n", TableLines(elapsed, issues, repoMap))
  }

  // ---------------------------------------------------------------------
  // Properties of the table
  // ---------------------------------------------------------------------

  /** n issues give n + 6 lines: the frame, the rows in issue order, and a footer stating n. */
  lemma TableShape(elapsed: string -> int, issues: seq<GitHubIssue>, repoMap: map<string, GithubRepository>)
    ensures |TableLines(elapsed, issues, repoMap)| == |issues| + 6
    ensures TableLines(elapsed, issues, repoMap)[..3] == [TopBorder(), HeaderRow(), Separator()]
    ensures forall i :: 0 <= i < |issues| ==>
      TableLines(elapsed, issues, repoMap)[3 + i] ==
        FormatIssueRow(elapsed, issues[i], Lookup(repoMap, FindUtils.RepoKey(issues[i].repository_url)))
    ensures TableLines(elapsed, issues, repoMap)[|issues| + 3..] == [BottomBorder(), "", Footer(|issues|)]
  {
    var rows := IssueRows(elapsed, issues, repoMap);
    var lines := TableLines(elapsed, issues, repoMap);
    forall i | 0 <= i < |issues|
      ensures lines[3 + i] == FormatIssueRow(elapsed, issues[i], Lookup(repoMap, FindUtils.RepoKey(issues[i].repository_url)))
    {
      assert lines[3 + i] == lines[3..|rows| + 3][i] == rows[i];
      IssueRowsAt(elapsed, issues, repoMap, i);
    }
  }

  /** The repository, language and title cells fill their columns exactly, whatever the text. */
  lemma IssueCellWidths(issue: GitHubIssue, repo: Option<GithubRepository>)
    ensures FindUtils.WideWidth(RepoCell(issue)) == COL.repo
    ensures FindUtils.WideWidth(LanguageCell(repo)) == COL.language
    ensures FindUtils.WideWidth(TitleCell(issue)) == COL.title
  {
    var language := if repo.Some? then repo.value.language.GetOr("-") else "-";
    FindUtils.WidePrefixWidth(language, COL.language);
  }

  /** An issue whose repository is not in the map shows `-` for its language and `0` stars. */
  lemma MissingRepoSentinels()
    ensures LanguageCell(None) == "-" + Repeat(' ', 11)
    ensures StarsCell(None) == Repeat(' ', 5) + "0"
  {
    FindUtils.WideWidthNarrow("-");
    FindUtils.WideWidthNarrow("0");
    assert FindUtils.WidePrefix("-", COL.language) == "-";
    assert FindUtils.FormatStars(0) == "0";
  }

  /** The `#` cell fills its column exactly for issue numbers below 100000 and overflows from there on. */
  lemma NumberCellFits(issue: GitHubIssue)
    requires issue.number >= 0
    ensures FindUtils.WideWidth(NumberCell(issue)) == COL.issue <==> issue.number < 100000
    ensures NumberCell(issue)[|NumberCell(issue)| - |"#" + Decimal(issue.number)|..] == "#" + Decimal(issue.number)
  {
    var text := "#" + Decimal(issue.number);
    FindUtils.WideWidthNarrow(text);
    NatDecimalShort(issue.number, 5);
  }

  function Pow10(k: nat): nat {
    if k == 0 then 1 else 10 * Pow10(k - 1)
  }

  /** A non-negative integer has at most k digits exactly when it is below 10^k. */
  lemma {:induction false} NatDecimalShort(n: nat, k: nat)
    requires k >= 1
    ensures |NatDecimal(n)| <= k <==> n < Pow10(k)
  {
    if n >= 10 {
      if k == 1 {
        assert Pow10(1) == 10;
      } else {
        NatDecimalShort(n / 10, k - 1);
      }
    } else {
      PowAtLeastTen(k);
    }
  }

  lemma {:induction false} PowAtLeastTen(k: nat)
    requires k >= 1
    ensures Pow10(k) >= 10
  {
    if k > 1 {
      PowAtLeastTen(k - 1);
    }
  }
}
