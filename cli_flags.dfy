/**
 * The parsed command line (packages/cli/src/parser.ts): the values
 * `parseArgs` yields for the declared options. Booleans with a default are
 * always present; the others are absent when not given, and `--labels` may
 * repeat.
 */
module Cli {
  import opened Nullish

  datatype CliFlags = CliFlags(
    help: bool,
    verbose: bool,
    language: Option<string>,
    assignedFlag: bool,  // `--assigned` (`assigned` is a Dafny keyword)
    labels: Option<seq<string>>,
    org: Option<string>,
    repo: Option<string>,
    sort: Option<string>,
    limit: Option<string>,
    json: Option<bool>)
}
