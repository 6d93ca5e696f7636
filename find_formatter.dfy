/**
 * The results table of the `find` command
 * (packages/cli/src/commands/find/formatter.ts). Every cell is padded or
 * truncated to its column before it is styled; `styleText` is a parameter
 * `style` whose output is opaque, and the clock is a parameter `elapsed`
 * giving the milliseconds since a timestamp.
 */
module FindFormatter {
  import opened Nullish
  import opened JsText
  import opened GitHubTypes
  import opened FindConstants
  import opened FindUtils
  import opened CommandUtils

  /** `colWidths()`: the column widths in display order. */
  const COL_WIDTHS: seq<nat> := [
    COL_WIDTH.repo, COL_WIDTH.language, COL_WIDTH.stars, COL_WIDTH.issue, COL_WIDTH.title, COL_WIDTH.age, COL_WIDTH.comments
  ]

  function Sum(ws: seq<nat>): nat {
    if ws == [] then 0 else ws[0] + Sum(ws[1..])
  }

  /** The horizontal rule over each column, two longer than its width for the cell's margins. */
  function Runs(ws: seq<nat>): (rs: seq<string>)
    ensures |rs| == |ws|
    ensures SumLengths(rs) == Sum(ws) + 2 * |ws|
    ensures forall i, j :: 0 <= i < |rs| && 0 <= j < |rs[i]| ==> rs[i][j] == '─'
  {
    if ws == [] then [] else [Repeat('─', ws[0] + 2)] + Runs(ws[1..])
  }

  /** A border line: a corner, the column rules joined by the junction, a corner. */
  function Border(left: char, junction: char, right: char): string {
    [left] + Join([junction], Runs(COL_WIDTHS)) + [right]
  }

  /** `topBorder()`: `┌`, the column runs joined by `┬`, `┐`. */
  function TopBorder(): (b: string)
    ensures |b| == 131 && b[0] == '┌' && b[130] == '┐'
    ensures forall i :: 0 < i < 130 ==> b[i] == '─' || b[i] == '┬'
  {
    BorderShape('┌', '┬', '┐');
    Border('┌', '┬', '┐')
  }

  /** `separator()`: `├`, the column runs joined by `┼`, `┤`. */
  function Separator(): (b: string)
    ensures |b| == 131 && b[0] == '├' && b[130] == '┤'
    ensures forall i :: 0 < i < 130 ==> b[i] == '─' || b[i] == '┼'
  {
    BorderShape('├', '┼', '┤');
    Border('├', '┼', '┤')
  }

  /** `bottomBorder()`: `└`, the column runs joined by `┴`, `┘`. */
  function BottomBorder(): (b: string)
    ensures |b| == 131 && b[0] == '└' && b[130] == '┘'
    ensures forall i :: 0 < i < 130 ==> b[i] == '─' || b[i] == '┴'
  {
    BorderShape('└', '┴', '┘');
    Border('└', '┴', '┘')
  }

  /** Every border is 131 code points long, starts and ends with its corners, and is drawn with `─` between its junctions. */
  lemma BorderShape(left: char, junction: char, right: char)
    ensures |Border(left, junction, right)| == 131
    ensures Border(left, junction, right)[0] == left && Border(left, junction, right)[130] == right
    ensures forall i :: 0 < i < 130 ==> Border(left, junction, right)[i] == '─' || Border(left, junction, right)[i] == junction
  {
    var rs := Runs(COL_WIDTHS);
    JoinLength([junction], rs);
    JoinDrawn(junction, rs);
    var w := COL_WIDTHS;
    assert Sum(w[7..]) == 0;
    assert Sum(w[6..]) == 8;
    assert Sum(w[5..]) == 15;
    assert Sum(w[4..]) == 55;
    assert Sum(w[3..]) == 61;
    assert Sum(w[2..]) == 67;
    assert Sum(w[1..]) == 79;
    assert Sum(w) == 109;
    var j := Join([junction], rs);
    assert |j| == 129;
    forall i | 0 < i < 130
      ensures Border(left, junction, right)[i] == '─' || Border(left, junction, right)[i] == junction
    {
      assert Border(left, junction, right)[i] == j[i - 1];
    }
  }

  /** Runs of `─` joined by a junction hold nothing but `─` and that junction. */
  lemma {:induction false} JoinDrawn(junction: char, rs: seq<string>)
    requires forall i, j :: 0 <= i < |rs| && 0 <= j < |rs[i]| ==> rs[i][j] == '─'
    ensures forall k :: 0 <= k < |Join([junction], rs)| ==> Join([junction], rs)[k] == '─' || Join([junction], rs)[k] == junction
  {
    if |rs| > 1 {
      JoinDrawn(junction, rs[1..]);
      var rest := Join([junction], rs[1..]);
      assert Join([junction], rs) == rs[0] + [junction] + rest;
      forall k | 0 <= k < |Join([junction], rs)|
        ensures Join([junction], rs)[k] == '─' || Join([junction], rs)[k] == junction
      {
        if k < |rs[0]| {
          assert Join([junction], rs)[k] == rs[0][k];
        } else if k > |rs[0]| {
          assert Join([junction], rs)[k] == rest[k - |rs[0]| - 1];
        }
      }
    }
  }

  /** `row(cells)`. */
  function Row(cells: seq<string>): string {
    "│ " + Join(" │ ", cells) + " │"
  }

  /** The width of the cells joined by `sep`, counted cell by cell. */
  function JoinedWidth(zeroWidth: int -> bool, sep: string, cells: seq<string>): nat
    requires cells != []
  {
    if |cells| == 1 then Width(zeroWidth, cells[0])
    else Width(zeroWidth, cells[0]) + Width(zeroWidth, sep) + JoinedWidth(zeroWidth, sep, cells[1..])
  }

  lemma {:induction false} JoinWidth(zeroWidth: int -> bool, sep: string, cells: seq<string>)
    requires cells != []
    ensures Width(zeroWidth, Join(sep, cells)) == JoinedWidth(zeroWidth, sep, cells)
  {
    if |cells| > 1 {
      var rest := Join(sep, cells[1..]);
      JoinWidth(zeroWidth, sep, cells[1..]);
      assert Join(sep, cells) == cells[0] + sep + rest;
      WidthAppend(zeroWidth, cells[0], sep);
      WidthAppend(zeroWidth, cells[0] + sep, rest);
    }
  }

  /** Seven cells: their widths and six separators. */
  lemma JoinedWidthSeven(zeroWidth: int -> bool, sep: string, cells: seq<string>)
    requires |cells| == 7
    ensures JoinedWidth(zeroWidth, sep, cells) ==
      Width(zeroWidth, cells[0]) + Width(zeroWidth, cells[1]) + Width(zeroWidth, cells[2]) + Width(zeroWidth, cells[3])
      + Width(zeroWidth, cells[4]) + Width(zeroWidth, cells[5]) + Width(zeroWidth, cells[6]) + 6 * Width(zeroWidth, sep)
  {
    assert JoinedWidth(zeroWidth, sep, cells[6..]) == Width(zeroWidth, cells[6]);
    JoinedWidthStep(zeroWidth, sep, cells, 5);
    JoinedWidthStep(zeroWidth, sep, cells, 4);
    JoinedWidthStep(zeroWidth, sep, cells, 3);
    JoinedWidthStep(zeroWidth, sep, cells, 2);
    JoinedWidthStep(zeroWidth, sep, cells, 1);
    JoinedWidthStep(zeroWidth, sep, cells, 0);
    assert cells[0..] == cells;
  }

  lemma JoinedWidthStep(zeroWidth: int -> bool, sep: string, cells: seq<string>, k: nat)
    requires k + 1 < |cells|
    ensures JoinedWidth(zeroWidth, sep, cells[k..]) ==
      Width(zeroWidth, cells[k]) + Width(zeroWidth, sep) + JoinedWidth(zeroWidth, sep, cells[k + 1..])
  {
    assert cells[k..][0] == cells[k];
    assert cells[k..][1..] == cells[k + 1..];
  }

  /** A row is as wide as its cells, plus three between neighbours and two at each end. */
  lemma RowWidth(zeroWidth: int -> bool, cells: seq<string>)
    requires cells != []
    requires !zeroWidth(' ' as int) && !zeroWidth('│' as int)
    ensures Width(zeroWidth, Row(cells)) == JoinedWidth(zeroWidth, " │ ", cells) + 4
    ensures Width(zeroWidth, " │ ") == 3
  {
    JoinWidth(zeroWidth, " │ ", cells);
    FrameWidths(zeroWidth);
    WidthAppend(zeroWidth, "│ ", Join(" │ ", cells));
    WidthAppend(zeroWidth, "│ " + Join(" │ ", cells), " │");
  }

  /** The row's frame pieces take one column per code point. */
  lemma FrameWidths(zeroWidth: int -> bool)
    requires !zeroWidth(' ' as int) && !zeroWidth('│' as int)
    ensures Width(zeroWidth, " │ ") == 3 && Width(zeroWidth, "│ ") == 2 && Width(zeroWidth, " │") == 2
  {
    WidthWithoutZeroWidth(zeroWidth, " │ ");
    WidthWithoutZeroWidth(zeroWidth, "│ ");
    WidthWithoutZeroWidth(zeroWidth, " │");
    assert WideWidth(" │ ") == 3 && WideWidth("│ ") == 2 && WideWidth(" │") == 2;
  }

  /** The header labels in column order, and whether each is left-aligned (padded at the end). */
  const HEADER_LABELS: seq<string> := ["Repo", "Language", "Stars", "#", "Title", "Age", "Comments"]
  const HEADER_PAD_END: seq<bool> := [true, true, false, false, true, false, false]

  /** The header label of column k, padded to the column. */
  function HeaderCell(zeroWidth: int -> bool, k: nat): string
    requires k < 7
  {
    if HEADER_PAD_END[k] then PadEnd(zeroWidth, HEADER_LABELS[k], COL_WIDTHS[k])
    else PadStart(zeroWidth, HEADER_LABELS[k], COL_WIDTHS[k])
  }

  /** The header labels, padded to their columns. */
  function HeaderCells(zeroWidth: int -> bool): (h: seq<string>)
    ensures |h| == 7
  {
    [HeaderCell(zeroWidth, 0), HeaderCell(zeroWidth, 1), HeaderCell(zeroWidth, 2), HeaderCell(zeroWidth, 3),
      HeaderCell(zeroWidth, 4), HeaderCell(zeroWidth, 5), HeaderCell(zeroWidth, 6)]
  }

  /** `headerRow()`: the padded labels, each in bold. */
  function HeaderRow(zeroWidth: int -> bool, style: (Style, string) -> string): string {
    var h := HeaderCells(zeroWidth);
    Row([style(Bold, h[0]), style(Bold, h[1]), style(Bold, h[2]), style(Bold, h[3]),
      style(Bold, h[4]), style(Bold, h[5]), style(Bold, h[6])])
  }

  /** Only code points below 0x80. */
  predicate Ascii(s: string) {
    s == [] || ((s[0] as int) < 0x80 && Ascii(s[1..]))
  }

  lemma {:induction false} AsciiCodes(s: string)
    requires Ascii(s)
    ensures forall i :: 0 <= i < |s| ==> (s[i] as int) < 0x80
  {
    if s != [] {
      AsciiCodes(s[1..]);
    }
  }

  /** Every label is ASCII and no longer than its column. */
  lemma HeaderLabelsFit(k: nat)
    requires k < 7
    ensures Ascii(HEADER_LABELS[k]) && |HEADER_LABELS[k]| <= COL_WIDTHS[k]
  {
  }

  /** An ASCII label no wider than its column, padded, fills the column exactly. */
  lemma LabelFills(zeroWidth: int -> bool, text: string, width: nat)
    requires !zeroWidth(' ' as int)
    requires Ascii(text) && |text| <= width
    ensures Width(zeroWidth, PadEnd(zeroWidth, text, width)) == width
    ensures Width(zeroWidth, PadStart(zeroWidth, text, width)) == width
  {
    AsciiCodes(text);
    WideWidthNarrow(text);
    PadWidth(zeroWidth, text, width);
  }

  /** Before styling, every header label fills its column, unless a space is zero-width. */
  lemma HeaderCellWidth(zeroWidth: int -> bool, k: nat)
    requires k < 7 && !zeroWidth(' ' as int)
    ensures Width(zeroWidth, HeaderCell(zeroWidth, k)) == COL_WIDTHS[k]
  {
    HeaderLabelsFit(k);
    LabelFills(zeroWidth, HEADER_LABELS[k], COL_WIDTHS[k]);
  }

  /** So the header, before styling, is exactly as wide as the borders are long. */
  lemma HeaderWidth(zeroWidth: int -> bool)
    requires !zeroWidth(' ' as int) && !zeroWidth('│' as int)
    ensures Width(zeroWidth, Row(HeaderCells(zeroWidth))) == |TopBorder()|
  {
    var h := HeaderCells(zeroWidth);
    HeaderCellWidth(zeroWidth, 0);
    HeaderCellWidth(zeroWidth, 1);
    HeaderCellWidth(zeroWidth, 2);
    HeaderCellWidth(zeroWidth, 3);
    HeaderCellWidth(zeroWidth, 4);
    HeaderCellWidth(zeroWidth, 5);
    HeaderCellWidth(zeroWidth, 6);
    RowWidth(zeroWidth, h);
    JoinedWidthSeven(zeroWidth, " │ ", h);
  }

  /** The repository key, truncated and padded to its column. */
  function RepoCell(zeroWidth: int -> bool, issue: IssueWithRepo): string {
    PadEnd(zeroWidth, Truncate(zeroWidth, RepoKey(issue.issue.repository_url), COL_WIDTH.repo), COL_WIDTH.repo)
  }

  /** The language, `-` when unknown, cut to its column and padded. */
  function LanguageCell(zeroWidth: int -> bool, issue: IssueWithRepo): string {
    PadEnd(zeroWidth, WidePrefix(issue.repo.language.GetOr("-"), COL_WIDTH.language), COL_WIDTH.language)
  }

  /** The star count, 0 when unknown, right-aligned. */
  function StarsCell(zeroWidth: int -> bool, issue: IssueWithRepo): string {
    PadStart(zeroWidth, FormatStars(issue.repo.stargazers_count.GetOr(0)), COL_WIDTH.stars)
  }

  /** The 1-based position, right-aligned. */
  function PositionCell(zeroWidth: int -> bool, index: int): string {
    PadStart(zeroWidth, "#" + Decimal(index), COL_WIDTH.issue)
  }

  /** The title, truncated and padded. */
  function TitleCell(zeroWidth: int -> bool, issue: IssueWithRepo): string {
    PadEnd(zeroWidth, Truncate(zeroWidth, issue.issue.title, COL_WIDTH.title), COL_WIDTH.title)
  }

  /** The age, right-aligned. */
  function AgeCell(zeroWidth: int -> bool, elapsed: string -> int, issue: IssueWithRepo): string {
    PadStart(zeroWidth, FormatAge(elapsed(issue.issue.created_at)), COL_WIDTH.age)
  }

  /** The comment count, right-aligned. */
  function CommentsCell(zeroWidth: int -> bool, issue: IssueWithRepo): string {
    PadStart(zeroWidth, Decimal(issue.issue.comments), COL_WIDTH.comments)
  }

  /** The cells of the row for one issue, before styling. */
  function IssueCells(zeroWidth: int -> bool, elapsed: string -> int, issue: IssueWithRepo, index: int): (c: seq<string>)
    ensures |c| == 7
  {
    [RepoCell(zeroWidth, issue), LanguageCell(zeroWidth, issue), StarsCell(zeroWidth, issue),
      PositionCell(zeroWidth, index), TitleCell(zeroWidth, issue), AgeCell(zeroWidth, elapsed, issue),
      CommentsCell(zeroWidth, issue)]
  }

  /** `formatIssueRow(issue, index)`: repository cyan, language and position dim, age coloured by age. */
  function FormatIssueRow(zeroWidth: int -> bool, elapsed: string -> int, style: (Style, string) -> string,
    issue: IssueWithRepo, index: int): string
  {
    var c := IssueCells(zeroWidth, elapsed, issue, index);
    Row([style(Cyan, c[0]), style(Dim, c[1]), c[2], style(Dim, c[3]), c[4],
      AgeColor(elapsed(issue.issue.created_at), c[5], style), c[6]])
  }

  /** The repository, language and title cells fill their columns exactly, whatever the text. */
  lemma IssueCellWidths(zeroWidth: int -> bool, issue: IssueWithRepo)
    requires !zeroWidth(' ' as int)
    ensures Width(zeroWidth, RepoCell(zeroWidth, issue)) == COL_WIDTH.repo
    ensures Width(zeroWidth, LanguageCell(zeroWidth, issue)) == COL_WIDTH.language
    ensures Width(zeroWidth, TitleCell(zeroWidth, issue)) == COL_WIDTH.title
  {
    PadTruncatedExact(zeroWidth, RepoKey(issue.issue.repository_url), COL_WIDTH.repo);
    PadPrefixExact(zeroWidth, issue.repo.language.GetOr("-"), COL_WIDTH.language);
    PadTruncatedExact(zeroWidth, issue.issue.title, COL_WIDTH.title);
  }

  /** From 100000 on, the position is seven columns wide and overflows its six-wide column. */
  lemma PositionOverflows(zeroWidth: int -> bool)
    requires forall code :: 0 <= code < 0x80 ==> !zeroWidth(code)
    ensures Width(zeroWidth, PositionCell(zeroWidth, 100000)) == 7 > COL_WIDTH.issue
  {
    var text := "#" + Decimal(100000);
    assert NatDecimal(100000) == "100000";
    AsciiWidth(zeroWidth, text);
  }

  /** The closing line. */
  function Disclosure(n: int): string {
    "Showing " + Decimal(n) + " issues. Run good-first-issue open <n> to open in browser."
  }

  /**
   * The layout of a results table: top border, header, separator, the rows
   * in order, bottom border, a blank line and the closing disclosure.
   */
  function Frame(header: string, rows: seq<string>, disclosure: string): (lines: seq<string>)
    ensures |lines| == |rows| + 6
    ensures lines[0] == TopBorder() && lines[1] == header && lines[2] == Separator()
    ensures forall i :: 0 <= i < |rows| ==> lines[3 + i] == rows[i]
    ensures lines[|rows| + 3] == BottomBorder() && lines[|rows| + 4] == "" && lines[|rows| + 5] == disclosure
  {
    [TopBorder(), header, Separator()] + rows + [BottomBorder(), "", disclosure]
  }

  /**
   * `items.map((item, i) => format(item, i + 1))`, from the item shown at
   * position `position` on.
   */
  function Rows<T>(format: (T, int) -> string, items: seq<T>, position: int): (rows: seq<string>)
    ensures |rows| == |items|
  {
    if items == [] then []
    else [format(items[0], position)] + Rows(format, items[1..], position + 1)
  }

  /** Row i shows item i at position `position + i`. */
  lemma {:induction false} RowsAt<T>(format: (T, int) -> string, items: seq<T>, position: int, i: int)
    requires 0 <= i < |items|
    ensures Rows(format, items, position)[i] == format(items[i], position + i)
  {
    if i > 0 {
      RowsAt(format, items[1..], position + 1, i - 1);
      assert items[1..][i - 1] == items[i];
    }
  }

  /** The lines of `formatTable(issues)`: the bold header, one row per issue, the dimmed disclosure. */
  function TableLines(zeroWidth: int -> bool, elapsed: string -> int, style: (Style, string) -> string,
    issues: seq<IssueWithRepo>): (lines: seq<string>)
    ensures |lines| == |issues| + 6
  {
    Frame(HeaderRow(zeroWidth, style),
      Rows((issue, index) => FormatIssueRow(zeroWidth, elapsed, style, issue, index), issues, 1),
      style(Dim, Disclosure(|issues|)))
  }

  /** Line 3 + i shows issue i, in order, at position i + 1. */
  lemma TableLinesRow(zeroWidth: int -> bool, elapsed: string -> int, style: (Style, string) -> string,
    issues: seq<IssueWithRepo>, i: int)
    requires 0 <= i < |issues|
    ensures TableLines(zeroWidth, elapsed, style, issues)[3 + i] == FormatIssueRow(zeroWidth, elapsed, style, issues[i], i + 1)
  {
    var format := (issue, index) => FormatIssueRow(zeroWidth, elapsed, style, issue, index);
    RowsAt(format, issues, 1, i);
  }

  /** `formatTable(issues)`: the lines joined by newlines. */
  function FormatTable(zeroWidth: int -> bool, elapsed: string -> int, style: (Style, string) -> string,
    issues: seq<IssueWithRepo>): string
  {
    Join("\n", TableLines(zeroWidth, elapsed, style, issues))
  }

  /**
   * Read back line by line, the table gives its lines again, n + 6 of them
   * for n issues, provided no styled cell or title introduces a line break.
   */
  lemma TableLinesRoundTrip(zeroWidth: int -> bool, elapsed: string -> int, style: (Style, string) -> string,
    issues: seq<IssueWithRepo>)
    requires forall i :: 0 <= i < |issues| + 6 ==> '\n' !in TableLines(zeroWidth, elapsed, style, issues)[i]
    ensures Split(FormatTable(zeroWidth, elapsed, style, issues), '\n') == TableLines(zeroWidth, elapsed, style, issues)
    ensures |Split(FormatTable(zeroWidth, elapsed, style, issues), '\n')| == |issues| + 6
  {
    SplitJoin(TableLines(zeroWidth, elapsed, style, issues), '\n');
  }
}
