/**
 * The `find` command (packages/cli/src/commands/find/index.ts): the search
 * request built from the flags, the search, the repository fetches and the
 * enrichment of each issue. The two client calls are parameters: `search`
 * stands for `getIssues` and `getRepository` for `getRepository` on the
 * owner and name the repository key splits into. Printing is not modelled;
 * the enriched issues are the command's result.
 */
module Find {
  import opened Nullish
  import opened Results
  import opened JsText
  import opened GitHubTypes
  import opened FindConstants
  import opened FindUtils
  import opened Cli
  import QueryBuilder
  import CommandUtils
  import FindFormatter

  // ---------------------------------------------------------------------
  // The search request
  // ---------------------------------------------------------------------

  /**
   * The request `find` asks for: the default labels followed by the
   * `--labels` values, the language, organisation and repository when the
   * flag is a non-empty string, and the page size when `--limit` is. Nothing
   * else is set; in particular `--sort` and `--assigned` are not consulted.
   * A limit that is no number is NaN, which like an absent page size adds no
   * `per_page`, so it is `None` here.
   */
  function SearchParamsOf(flags: CliFlags): (p: IssueSearchParams)
    ensures p.labels == Some(DetermineLabels(flags))
    ensures p.language == (if Truthy(flags.language) then flags.language else None)
    ensures p.org == (if Truthy(flags.org) then flags.org else None)
    ensures p.repo == (if Truthy(flags.repo) then flags.repo else None)
    ensures p.perPage == (if Truthy(flags.limit) then NumberOf(flags.limit.value) else None)
    ensures p.isKind == None && p.noAssignee == None && p.state == None && p.rawQuery == None
    ensures p.(labels := None, language := None, org := None, repo := None, perPage := None) == EMPTY_PARAMS
  {
    EMPTY_PARAMS.(
      labels := Some(DetermineLabels(flags)),
      language := if Truthy(flags.language) then flags.language else None,
      org := if Truthy(flags.org) then flags.org else None,
      repo := if Truthy(flags.repo) then flags.repo else None,
      perPage := if Truthy(flags.limit) then NumberOf(flags.limit.value) else None)
  }

  /** The field-by-field filling of the initially empty `searchParams` object. */
  method FillSearchParams(flags: CliFlags) returns (searchParams: IssueSearchParams)
    ensures searchParams == SearchParamsOf(flags)
  {
    searchParams := EMPTY_PARAMS;
    searchParams := searchParams.(labels := Some(DEFAULT_LABELS));
    if flags.labels.Some? {
      searchParams := searchParams.(labels := Some(searchParams.labels.value + flags.labels.value));
    }
    if Truthy(flags.language) {
      searchParams := searchParams.(language := flags.language);
    }
    if Truthy(flags.org) {
      searchParams := searchParams.(org := flags.org);
    }
    if Truthy(flags.repo) {
      searchParams := searchParams.(repo := flags.repo);
    }
    if Truthy(flags.limit) {
      searchParams := searchParams.(perPage := NumberOf(flags.limit.value));
    }
  }

  /**
   * The clauses of a `find` search: the language, organisation and
   * repository clauses that apply, then one label clause per default label
   * and per `--labels` value, in that order.
   */
  lemma FindClauses(flags: CliFlags)
    ensures QueryBuilder.Clauses(SearchParamsOf(flags)) ==
      QueryBuilder.If(Truthy(flags.language), QueryBuilder.LanguageIs(flags.language.GetOr("")))
      + QueryBuilder.If(Truthy(flags.org), QueryBuilder.OrgIs(flags.org.GetOr("")))
      + QueryBuilder.If(Truthy(flags.repo), QueryBuilder.RepoIs(flags.repo.GetOr("")))
      + QueryBuilder.LabelClauses(DEFAULT_LABELS + flags.labels.GetOr([]))
  {
    var p := SearchParamsOf(flags);
    assert DetermineLabels(flags) == DEFAULT_LABELS + flags.labels.GetOr([]);
    FlagClauses(flags, p, DetermineLabels(flags));
  }

  /** The clause list of parameters filled from the flags' language, org and repo, with the given labels. */
  lemma FlagClauses(flags: CliFlags, p: IssueSearchParams, labels: seq<string>)
    requires p.isKind.None? && p.noAssignee.None? && p.state.None? && p.labels == Some(labels)
    requires p.language == (if Truthy(flags.language) then flags.language else None)
    requires p.org == (if Truthy(flags.org) then flags.org else None)
    requires p.repo == (if Truthy(flags.repo) then flags.repo else None)
    ensures QueryBuilder.Clauses(p) ==
      QueryBuilder.If(Truthy(flags.language), QueryBuilder.LanguageIs(flags.language.GetOr("")))
      + QueryBuilder.If(Truthy(flags.org), QueryBuilder.OrgIs(flags.org.GetOr("")))
      + QueryBuilder.If(Truthy(flags.repo), QueryBuilder.RepoIs(flags.repo.GetOr("")))
      + QueryBuilder.LabelClauses(labels)
  {
    assert QueryBuilder.If(Truthy(p.language), QueryBuilder.LanguageIs(p.language.GetOr("")))
      == QueryBuilder.If(Truthy(flags.language), QueryBuilder.LanguageIs(flags.language.GetOr("")));
    assert QueryBuilder.If(Truthy(p.org), QueryBuilder.OrgIs(p.org.GetOr("")))
      == QueryBuilder.If(Truthy(flags.org), QueryBuilder.OrgIs(flags.org.GetOr("")));
    assert QueryBuilder.If(Truthy(p.repo), QueryBuilder.RepoIs(p.repo.GetOr("")))
      == QueryBuilder.If(Truthy(flags.repo), QueryBuilder.RepoIs(flags.repo.GetOr("")));
    QueryBuilder.PlainHeadClauses(p);
  }

  /**
   * There is always a label, so the expression is the clause texts joined
   * by single spaces, never trimmed and never empty: the query string always
   * starts with `q`.
   */
  lemma FindQuery(flags: CliFlags)
    ensures var p := SearchParamsOf(flags);
      && QueryBuilder.IssueQuery(p) == Join(" ", QueryBuilder.Texts(QueryBuilder.Clauses(p)))
      && QueryBuilder.QueryPairs(p)[0] == ("q", QueryBuilder.IssueQuery(p))
  {
    var p := SearchParamsOf(flags);
    assert p.labels.value == DEFAULT_LABELS + flags.labels.GetOr([]);
    assert |p.labels.value| >= 8;
    QueryBuilder.QueryWithLabelsUntrimmed(p);
    QueryNonEmpty(p);
    QueryBuilder.QueryFirst(p);
  }

  /** A structured expression with a clause is not empty. */
  lemma QueryNonEmpty(p: IssueSearchParams)
    requires !Truthy(p.rawQuery) && p.labels.Some? && p.labels.value != []
    ensures |QueryBuilder.IssueQuery(p)| > 0
  {
    var cs := QueryBuilder.Clauses(p);
    assert |cs| >= |p.labels.value|;
    var texts := QueryBuilder.Texts(cs);
    assert texts[0] == QueryBuilder.Text(cs[0]);
    JoinEnds(" ", texts);
    QueryBuilder.QueryWithLabelsUntrimmed(p);
  }

  // ---------------------------------------------------------------------
  // Enrichment
  // ---------------------------------------------------------------------

  /**
   * `items.map((item) => buildIssueItem(item, repoMap))` with the map the
   * repository fetches produce: one enriched issue per item, in order.
   */
  function Enrich(items: seq<GitHubIssue>, getRepository: string -> Result<GithubRepository, GitHubError>): (issues: seq<IssueWithRepo>)
    ensures |issues| == |items|
    ensures forall i :: 0 <= i < |items| ==> issues[i].issue == items[i]
  {
    var repoMap := SuccessMap(RepoKeys(items), getRepository);
    seq(|items|, i requires 0 <= i < |items| => BuildIssueItem(items[i], repoMap))
  }

  /** An issue whose repository fetch failed is still listed, unchanged, with every sentinel. */
  lemma FailedFetchSentinels(items: seq<GitHubIssue>, getRepository: string -> Result<GithubRepository, GitHubError>, i: int)
    requires 0 <= i < |items| && getRepository(RepoKey(items[i].repository_url)).Failure?
    ensures Enrich(items, getRepository)[i] == IssueWithRepo(items[i], GithubRepository(Some(0), Some("-"), Some("-"), Some("-")))
  {
  }

  /** An issue whose repository was fetched carries that repository's fields, sentinels only for the missing ones. */
  lemma FetchedRepoCopied(items: seq<GitHubIssue>, getRepository: string -> Result<GithubRepository, GitHubError>, i: int)
    requires 0 <= i < |items| && getRepository(RepoKey(items[i].repository_url)).Success?
    ensures var repo := getRepository(RepoKey(items[i].repository_url)).value;
      Enrich(items, getRepository)[i].repo == GithubRepository(
        Some(repo.stargazers_count.GetOr(0)), Some(repo.fill_name.GetOr("-")),
        Some(repo.language.GetOr("-")), Some(repo.description.GetOr("-")))
  {
    var key := RepoKey(items[i].repository_url);
    assert ItemKeys(items)[i] == key;
    assert key in RepoKeys(items);
  }

  /** Issues sharing a repository key share one fetch: the key is requested exactly once. */
  lemma SharedRepoFetchedOnce(items: seq<GitHubIssue>, i: int, j: int)
    requires 0 <= i < |items| && 0 <= j < |items|
    requires RepoKey(items[i].repository_url) == RepoKey(items[j].repository_url)
    ensures var keys := RepoKeys(items); var key := RepoKey(items[i].repository_url);
      exists k :: 0 <= k < |keys| && keys[k] == key && forall m :: 0 <= m < |keys| && keys[m] == key ==> m == k
  {
    var keys := RepoKeys(items);
    var key := RepoKey(items[i].repository_url);
    assert ItemKeys(items)[i] == key;
    assert key in keys;
    var k :| 0 <= k < |keys| && keys[k] == key;
    forall m | 0 <= m < |keys| && keys[m] == key
      ensures m == k
    {
      SameElementSameIndex(keys, m, k);
    }
  }

  /** In a sequence without repeats, equal elements sit at one index. */
  lemma SameElementSameIndex<T>(xs: seq<T>, m: int, k: int)
    requires forall i, j :: 0 <= i < j < |xs| ==> xs[i] != xs[j]
    requires 0 <= m < |xs| && 0 <= k < |xs| && xs[m] == xs[k]
    ensures m == k
  {
  }

  // ---------------------------------------------------------------------
  // The command
  // ---------------------------------------------------------------------

  /** What `find` ends with: the enriched issues and the repository keys fetched, or the failed search's kind. */
  datatype FindOutcome = Listed(issues: seq<IssueWithRepo>, requested: seq<string>) | Failed(kind: string)

  /**
   * `find(cliFlags)`: a failed search reports its kind and fetches no
   * repository; a successful one fetches each distinct repository once and
   * lists every item, in order, joined with its repository.
   */
  method RunFind(flags: CliFlags,
    search: IssueSearchParams -> Result<SearchResponse<GitHubIssue>, GitHubError>,
    getRepository: string -> Result<GithubRepository, GitHubError>) returns (outcome: FindOutcome)
    ensures var response := search(SearchParamsOf(flags));
      && (response.Failure? ==> outcome == Failed(Kind(response.error)))
      && (response.Success? ==> outcome == Listed(Enrich(response.value.items, getRepository), RepoKeys(response.value.items)))
  {
    var searchParams := FillSearchParams(flags);
    var response := search(searchParams);
    if response.Success? {
      var items := response.value.items;
      var repoMap, requested := FetchRepoDetails(items, getRepository);
      var issues := seq(|items|, i requires 0 <= i < |items| => BuildIssueItem(items[i], repoMap));
      outcome := Listed(issues, requested);
    } else {
      outcome := Failed(Kind(response.error));
    }
  }

  /**
   * Shown as a table, a row whose repository fetch failed has `-` for the
   * language and `0` stars; a row whose fetch succeeded shows the fetched
   * language, cut to its column, and star count.
   */
  lemma EnrichedRowCells(zeroWidth: int -> bool, items: seq<GitHubIssue>,
    getRepository: string -> Result<GithubRepository, GitHubError>, i: int)
    requires 0 <= i < |items|
    ensures var e := Enrich(items, getRepository)[i]; var r := getRepository(RepoKey(items[i].repository_url));
      && (r.Failure? ==>
            FindFormatter.LanguageCell(zeroWidth, e) == CommandUtils.PadEnd(zeroWidth, "-", COL_WIDTH.language)
            && FindFormatter.StarsCell(zeroWidth, e) == CommandUtils.PadStart(zeroWidth, "0", COL_WIDTH.stars))
      && (r.Success? && r.value.language.Some? && r.value.stargazers_count.Some? ==>
            FindFormatter.LanguageCell(zeroWidth, e) ==
              CommandUtils.PadEnd(zeroWidth, WidePrefix(r.value.language.value, COL_WIDTH.language), COL_WIDTH.language)
            && FindFormatter.StarsCell(zeroWidth, e) ==
              CommandUtils.PadStart(zeroWidth, FormatStars(r.value.stargazers_count.value), COL_WIDTH.stars))
  {
    var r := getRepository(RepoKey(items[i].repository_url));
    if r.Failure? {
      FailedFetchSentinels(items, getRepository, i);
      SentinelCells(zeroWidth, Enrich(items, getRepository)[i]);
    } else {
      FetchedRepoCopied(items, getRepository, i);
    }
  }

  /** A row with the sentinel repository shows `-` for the language and `0` stars. */
  lemma SentinelCells(zeroWidth: int -> bool, e: IssueWithRepo)
    requires e.repo == GithubRepository(Some(0), Some("-"), Some("-"), Some("-"))
    ensures FindFormatter.LanguageCell(zeroWidth, e) == CommandUtils.PadEnd(zeroWidth, "-", COL_WIDTH.language)
    ensures FindFormatter.StarsCell(zeroWidth, e) == CommandUtils.PadStart(zeroWidth, "0", COL_WIDTH.stars)
  {
    WideWidthNarrow("-");
    WidePrefixWhole("-", COL_WIDTH.language);
    assert FormatStars(0) == "0";
  }

  /**
   * The table of a successful `find`: n + 6 lines for n items, row i shows
   * item i with its repository at position i + 1, and the closing line states n.
   */
  lemma FindTable(zeroWidth: int -> bool, elapsed: string -> int, style: (Style, string) -> string,
    items: seq<GitHubIssue>, getRepository: string -> Result<GithubRepository, GitHubError>)
    ensures var issues := Enrich(items, getRepository);
      var lines := FindFormatter.TableLines(zeroWidth, elapsed, style, issues);
      && |lines| == |items| + 6
      && (forall i :: 0 <= i < |items| ==>
            lines[3 + i] == FindFormatter.FormatIssueRow(zeroWidth, elapsed, style, issues[i], i + 1)
            && issues[i].issue == items[i])
      && lines[|items| + 5] == style(Dim, FindFormatter.Disclosure(|items|))
  {
    var issues := Enrich(items, getRepository);
    forall i | 0 <= i < |items|
      ensures FindFormatter.TableLines(zeroWidth, elapsed, style, issues)[3 + i] ==
        FindFormatter.FormatIssueRow(zeroWidth, elapsed, style, issues[i], i + 1)
    {
      FindFormatter.TableLinesRow(zeroWidth, elapsed, style, issues, i);
    }
  }
}
