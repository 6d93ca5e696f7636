/**
 * The issue-search API's records (packages/core/src/github/types.ts).
 * Optional TypeScript fields (`x?: T`) are `Option`s; so are the repository
 * fields, which the API can send as `null` and which the enrichment step
 * guards with `??`.
 */
module GitHubTypes {
  import opened Nullish

  datatype GitHubLabel = GitHubLabel(id: int, name: string, description: Option<string>)

  datatype GitHubIssueState = Open | Closed

  datatype GitHubAssignee = GitHubAssignee(login: string)

  datatype GitHubPullRequest = GitHubPullRequest(url: string, html_url: string, diff_url: string, patch_url: string)

  datatype GitHubIssue = GitHubIssue(
    id: int,
    title: string,
    html_url: string,
    labels: seq<GitHubLabel>,
    created_at: string,
    updated_at: string,
    comments: int,
    state: GitHubIssueState,
    body: Option<string>,
    assignee: Option<GitHubAssignee>,
    repository_url: string,
    number: int,
    pull_request: Option<GitHubPullRequest>)

  datatype GithubRepository = GithubRepository(
    stargazers_count: Option<int>,
    fill_name: Option<string>,
    language: Option<string>,
    description: Option<string>)

  /** `GitHubIssue & GithubRepository`: every issue field together with the four repository fields. */
  datatype IssueWithRepo = IssueWithRepo(issue: GitHubIssue, repo: GithubRepository)

  datatype SearchResponse<T> = SearchResponse(total_count: int, incomplete_results: bool, items: seq<T>)

  datatype SortKey = Created | Updated | Comments | Reactions

  datatype SortOrder = Asc | Desc

  datatype IssueKind = IssueOnly | PullRequestOnly

  function StateName(s: GitHubIssueState): string {
    match s
    case Open => "open"
    case Closed => "closed"
  }

  function SortName(k: SortKey): string {
    match k
    case Created => "created"
    case Updated => "updated"
    case Comments => "comments"
    case Reactions => "reactions"
  }

  function OrderName(o: SortOrder): string {
    match o
    case Asc => "asc"
    case Desc => "desc"
  }

  function KindName(k: IssueKind): string {
    match k
    case IssueOnly => "issue"
    case PullRequestOnly => "pr"
  }

  /** The search request; every field is optional. */
  datatype IssueSearchParams = IssueSearchParams(
    language: Option<string>,
    labels: Option<seq<string>>,
    state: Option<GitHubIssueState>,
    repo: Option<string>,
    org: Option<string>,
    sort: Option<SortKey>,
    order: Option<SortOrder>,
    page: Option<int>,
    perPage: Option<int>,
    rawQuery: Option<string>,
    noAssignee: Option<bool>,
    isKind: Option<IssueKind>)  // the `is` field (`is` is a Dafny keyword)

  /** `{}`: a valid search request with no field set. */
  const EMPTY_PARAMS := IssueSearchParams(None, None, None, None, None, None, None, None, None, None, None, None)

  datatype RepoSearchParams = RepoSearchParams(owner: string, repo: string)

  /** A JavaScript `Date`: a millisecond offset from the epoch, or the invalid date. */
  datatype JsDate = ValidDate(epochMillis: int) | InvalidDate

  /** `new Date(ms)`: valid only within 8.64e15 ms of the epoch (ECMA-262 TimeClip). */
  function DateOf(ms: int): (d: JsDate)
    ensures d.ValidDate? <==> -8_640_000_000_000_000 <= ms <= 8_640_000_000_000_000
    ensures d.ValidDate? ==> d.epochMillis == ms
  {
    if -8_640_000_000_000_000 <= ms <= 8_640_000_000_000_000 then ValidDate(ms) else InvalidDate
  }

  /** The failure taxonomy: a rate limit carries only its reset time, every other kind only a message. */
  datatype GitHubError =
    | RateLimit(resetAt: JsDate)
    | Validation(message: string)
    | BadAuth(message: string)
    | NotFound(message: string)
    | ServerError(message: string)
    | NetworkError(message: string)

  /** The `kind` discriminant. */
  function Kind(e: GitHubError): (k: string)
    ensures k in KINDS
  {
    match e
    case RateLimit(_) => "rate_limit"
    case Validation(_) => "validation"
    case BadAuth(_) => "bad_auth"
    case NotFound(_) => "not_found"
    case ServerError(_) => "server_error"
    case NetworkError(_) => "network_error"
  }

  const KINDS: set<string> := {"rate_limit", "validation", "bad_auth", "not_found", "server_error", "network_error"}

  /** The six kinds are distinct: the discriminant determines the variant. */
  lemma KindDeterminesVariant(a: GitHubError, b: GitHubError)
    requires Kind(a) == Kind(b)
    ensures a.RateLimit? == b.RateLimit? && a.Validation? == b.Validation? && a.BadAuth? == b.BadAuth?
    ensures a.NotFound? == b.NotFound? && a.ServerError? == b.ServerError? && a.NetworkError? == b.NetworkError?
  {
  }

  /** Exactly six kinds exist, and every one of them is the kind of some error. */
  lemma SixKinds()
    ensures |KINDS| == 6
    ensures forall k :: k in KINDS ==> exists e :: Kind(e) == k
  {
    assert Kind(RateLimit(InvalidDate)) == "rate_limit";
    assert Kind(Validation("")) == "validation";
    assert Kind(BadAuth("")) == "bad_auth";
    assert Kind(NotFound("")) == "not_found";
    assert Kind(ServerError("")) == "server_error";
    assert Kind(NetworkError("")) == "network_error";
  }
}
