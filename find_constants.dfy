/**
 * The fixed values of the `find` command (packages/cli/src/commands/find/constants.ts):
 * the labels every search includes, the table's column widths and the two
 * age thresholds of the colour scale.
 */
module FindConstants {

  /** The labels every search asks for, in this order. */
  const DEFAULT_LABELS: seq<string> := [
    "good first issue",
    "help wanted",
    "beginner",
    "easy",
    "starter",
    "first-timers-only",
    "contributions welcome",
    "up-for-grabs"
  ]

  /** Display widths of the table's columns. */
  datatype ColumnWidths = ColumnWidths(issue: nat, repo: nat, language: nat, stars: nat, title: nat, age: nat, comments: nat)

  const COL_WIDTH := ColumnWidths(6, 30, 12, 6, 40, 7, 8)

  /** One week in milliseconds. */
  const ONE_WEEK: int := 7 * 24 * 60 * 60 * 1000

  const EIGHT_WEEKS: int := ONE_WEEK * 8

  /** Eight distinct labels. */
  lemma DefaultLabels()
    ensures |DEFAULT_LABELS| == 8
    ensures forall i, j :: 0 <= i < j < |DEFAULT_LABELS| ==> DEFAULT_LABELS[i] != DEFAULT_LABELS[j]
  {
  }

  /** Every column is at least three wide, the room `truncate` needs for its ellipsis. */
  lemma ColumnsFitEllipsis()
    ensures COL_WIDTH.issue >= 3 && COL_WIDTH.repo >= 3 && COL_WIDTH.language >= 3 && COL_WIDTH.stars >= 3
    ensures COL_WIDTH.title >= 3 && COL_WIDTH.age >= 3 && COL_WIDTH.comments >= 3
  {
  }

  /** The week is 604800 seconds, the unit `formatAge` calls a week, and the second threshold is eight of them. */
  lemma Weeks()
    ensures ONE_WEEK == 604_800_000 == 1000 * 604_800
    ensures EIGHT_WEEKS == 8 * ONE_WEEK == 4_838_400_000
  {
  }
}
