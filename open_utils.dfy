/**
 * The saved search results behind `open <n>`
 * (packages/cli/src/commands/open/utils.ts): where they are kept, which URLs
 * are kept, and how a 1-based number picks one of them back out. The
 * temporary directory is a parameter; reading and writing the file are not
 * modelled.
 */
module OpenUtils {
  import opened Results
  import opened JsText
  import opened GitHubTypes
  import FindFormatter
  import FindUtils

  const RESULTS_FILE := "good-first-issues-results.json"

  /** `getSearchResultsFilepath()`: the results file inside the temporary directory. */
  function SearchResultsFilepath(tmpDir: string): (path: string)
    ensures |path| == |tmpDir| + 1 + |RESULTS_FILE|
    ensures path[..|tmpDir|] == tmpDir
    ensures path[|tmpDir|..] == "/" + RESULTS_FILE
  {
    Split3(tmpDir, [], "/" + RESULTS_FILE);
    tmpDir + ("/" + RESULTS_FILE)
  }

  /** A concatenation of three parts gives back its first and last part. */
  lemma Split3<T>(a: seq<T>, mid: seq<T>, b: seq<T>)
    ensures (a + mid + b)[..|a|] == a
    ensures (a + mid + b)[|a| + |mid|..] == b
  {
  }

  /** The parsed contents of the results file: an array, or some other JSON value. */
  datatype Content<T> = Array(elements: seq<T>) | NotArray

  const CORRUPTED := "Search results file is corrupted. Run a search first with: good-first-issue find"

  /** The message for a number below 1. */
  function InvalidNumber(issue: int): string {
    "Invalid issue number: " + Decimal(issue) + ". Must be a positive number (e.g., good-first-issue open 1)"
  }

  /** `result` for exactly one, `results` otherwise. */
  function Plural(n: nat): (s: string)
    ensures n == 1 <==> s == "result"
  {
    if n == 1 then "result" else "results"
  }

  /**
   * The message for a number past the end of the saved list: it names the
   * number, then the count with its plural, then the valid range.
   */
  function OutOfRange(issue: int, n: nat): string {
    RangeHead(issue) + RangeMiddle(n) + RangeTail(n)
  }

  function RangeHead(issue: int): string {
    "Issue #" + Decimal(issue)
  }

  function RangeMiddle(n: nat): string {
    " is out of range. Your last search returned " + Decimal(n) + " " + Plural(n) + " (1-"
  }

  function RangeTail(n: nat): string {
    Decimal(n) + ")"
  }

  /**
   * `getIssue(content, issue)`, its thrown errors as failures: contents that
   * are not an array are corrupted, whatever the number; then a number
   * below 1 is invalid, and one past the end is out of range; otherwise the
   * element at that 1-based position.
   */
  function GetIssue<T>(content: Content<T>, issue: int): (r: Result<T, string>)
    ensures r.Success? <==> content.Array? && 1 <= issue <= |content.elements|
    ensures r.Success? ==> r.value == content.elements[issue - 1]
    ensures content.NotArray? ==> r == Failure(CORRUPTED)
    ensures content.Array? && issue <= 0 ==> r == Failure(InvalidNumber(issue))
    ensures content.Array? && issue > |content.elements| > 0 ==> r == Failure(OutOfRange(issue, |content.elements|))
  {
    if content.NotArray? then Failure(CORRUPTED)
    else if issue <= 0 then Failure(InvalidNumber(issue))
    else if issue > |content.elements| then Failure(OutOfRange(issue, |content.elements|))
    else Success(content.elements[issue - 1])
  }

  /** The out-of-range message starts with `Issue #<number>` and ends with `<count>)`. */
  lemma OutOfRangeMessage(issue: int, n: nat)
    ensures var m := OutOfRange(issue, n);
      && m[..|"Issue #" + Decimal(issue)|] == "Issue #" + Decimal(issue)
      && m[|m| - |Decimal(n) + ")"|..] == Decimal(n) + ")"
  {
    Split3(RangeHead(issue), RangeMiddle(n), RangeTail(n));
  }

  /** An empty saved list makes every positive number out of range, with `results` and `(1-0)`. */
  lemma NothingSaved<T>(issue: int)
    requires issue >= 1
    ensures GetIssue(Content<T>.Array([]), issue) == Failure(OutOfRange(issue, 0))
    ensures OutOfRange(issue, 0)[|OutOfRange(issue, 0)| - 5..] == "(1-0)"
  {
    assert Decimal(0) == "0";
  }

  /** `issues.map((i) => i.html_url)`: the saved list, one URL per issue, in table order. */
  function SavedUrls(issues: seq<IssueWithRepo>): (urls: seq<string>)
    ensures |urls| == |issues|
    ensures forall i :: 0 <= i < |issues| ==> urls[i] == issues[i].issue.html_url
  {
    seq(|issues|, i requires 0 <= i < |issues| => issues[i].issue.html_url)
  }

  /**
   * Opening number n of the saved list gives the URL of the issue the
   * table showed at position n, and only the positions the table showed
   * can be opened.
   */
  lemma OpenShownRow(zeroWidth: int -> bool, elapsed: string -> int, style: (FindUtils.Style, string) -> string,
    issues: seq<IssueWithRepo>, n: int)
    ensures GetIssue(Array(SavedUrls(issues)), n).Success? <==> 1 <= n <= |issues|
    ensures 1 <= n <= |issues| ==>
      && GetIssue(Array(SavedUrls(issues)), n) == Success(issues[n - 1].issue.html_url)
      && FindFormatter.TableLines(zeroWidth, elapsed, style, issues)[3 + (n - 1)]
         == FindFormatter.FormatIssueRow(zeroWidth, elapsed, style, issues[n - 1], n)
  {
    if 1 <= n <= |issues| {
      FindFormatter.TableLinesRow(zeroWidth, elapsed, style, issues, n - 1);
    }
  }
}
