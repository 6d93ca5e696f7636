/**
 * The HTTP side of the GitHub client (packages/core/src/github/client.ts):
 * the request headers, the classification of a failed response into a
 * `GitHubError`, and the two outcomes of the private `fetch`. The network
 * call and the JSON parser are not modelled; a response arrives already
 * parsed, or as the message of what was thrown.
 */
module GitHubClient {
  import opened Nullish
  import opened Results
  import opened JsText
  import opened GitHubTypes

  /** `response.json()`: a parsed value with its `message` field when that is a string, or the parse error's message. */
  datatype Json<T> = Unparseable(reason: string) | Parsed(data: T, message: Option<string>)

  /**
   * A response: its status, its headers keyed by lower-case name, and its
   * body.
   */
  datatype Response<T> = Response(status: int, headers: map<string, string>, body: Json<T>)

  /** What awaiting `fetch(url)` gives: the message of what it threw, or a response. */
  datatype FetchOutcome<T> = Thrown(message: string) | Responded(response: Response<T>)

  /** `response.ok`: a 2xx status (section 15.3 of RFC 9110). */
  predicate ResponseOk<T>(r: Response<T>) {
    200 <= r.status <= 299
  }

  /** `headers.get(name)`: the value, or `null`. */
  function Header<T>(r: Response<T>, name: string): (v: Option<string>)
    ensures v.Some? <==> name in r.headers
    ensures v.Some? ==> v.value == r.headers[name]
  {
    if name in r.headers then Some(r.headers[name]) else None
  }

  const ACCEPT := "application/vnd.github.v3+json"

  /** The client's configuration. */
  datatype Config = Config(token: Option<string>)

  /**
   * `body?.message ?? \`HTTP ${status}\``: the body's message whenever there
   * is one, even the empty string; an unparseable body counts as none.
   */
  function Message<T>(r: Response<T>): (m: string)
    ensures r.body.Parsed? && r.body.message.Some? ==> m == r.body.message.value
    ensures !(r.body.Parsed? && r.body.message.Some?) ==> m == "HTTP " + Decimal(r.status)
  {
    match r.body
    case Parsed(_, Some(m)) => m
    case _ => "HTTP " + Decimal(r.status)
  }

  /**
   * `new Date(Number(reset) * 1000)`, reset being the `x-ratelimit-reset`
   * value in epoch seconds: a missing header is `Number(null)`, 0; text that
   * is no number is NaN, the invalid date.
   */
  function ResetDate(reset: Option<string>): (d: JsDate)
    ensures reset.None? ==> d == ValidDate(0)
    ensures reset.Some? && NumberOf(reset.value).None? ==> d == InvalidDate
    ensures reset.Some? && NumberOf(reset.value).Some? ==> d == DateOf(NumberOf(reset.value).value * 1000)
  {
    if reset.None? then DateOf(0)
    else match NumberOf(reset.value)
      case Some(n) => DateOf(n * 1000)
      case None => InvalidDate
  }

  class GithubClient {
    const config: Config

    constructor(config: Config)
      ensures this.config == config
    {
      this.config := config;
    }

    /**
     * The `headers` getter in order: `Accept` always, then `Authorization:
     * Bearer <token>` (section 2.1 of RFC 6750) when the token is a non-empty
     * string.
     */
    function Headers(): (h: seq<(string, string)>)
      ensures |h| >= 1 && h[0] == ("Accept", ACCEPT)
      ensures |h| == 2 <==> Truthy(config.token)
      ensures |h| == 2 ==> h[1] == ("Authorization", "Bearer " + config.token.value)
    {
      [("Accept", ACCEPT)]
      + (if Truthy(config.token) then [("Authorization", "Bearer " + config.token.value)] else [])
    }

    /**
     * `errorKind(response)`: always a failure. 401 is bad credentials; 403
     * is a rate limit when `x-ratelimit-remaining` is exactly `"0"` and bad
     * credentials otherwise; 404 is not found; 422 is a validation error;
     * 500 and above is a server error; any other status is a network error.
     */
    function ErrorKind<T>(r: Response<T>): (e: Result<T, GitHubError>)
      ensures e.Failure?
      ensures r.status == 401 ==> e.error == BadAuth(Message(r))
      ensures r.status == 403 && Header(r, "x-ratelimit-remaining") == Some("0") ==>
        e.error == RateLimit(ResetDate(Header(r, "x-ratelimit-reset")))
      ensures r.status == 403 && Header(r, "x-ratelimit-remaining") != Some("0") ==> e.error == BadAuth(Message(r))
      ensures r.status == 404 ==> e.error == NotFound(Message(r))
      ensures r.status == 422 ==> e.error == Validation(Message(r))
      ensures r.status >= 500 ==> e.error == ServerError(Message(r))
      ensures r.status !in {401, 403, 404, 422} && r.status < 500 ==> e.error == NetworkError(Message(r))
    {
      var message := Message(r);
      if r.status == 401 then Err(BadAuth(message))
      else if r.status == 403 then
        if Header(r, "x-ratelimit-remaining") == Some("0") then
          Err(RateLimit(ResetDate(Header(r, "x-ratelimit-reset"))))
        else Err(BadAuth(message))
      else if r.status == 404 then Err(NotFound(message))
      else if r.status == 422 then Err(Validation(message))
      else if r.status >= 500 then Err(ServerError(message))
      else Err(NetworkError(message))
    }

    /**
     * The private `fetch` after the network call: a thrown error, or a body
     * that does not parse on a 2xx response, is a network error carrying the
     * thrown message; any other non-2xx response is classified by
     * `ErrorKind`; a parsed 2xx body is the success value.
     */
    function Fetch<T>(outcome: FetchOutcome<T>): (r: Result<T, GitHubError>)
      ensures outcome.Thrown? ==> r == Err(NetworkError(outcome.message))
      ensures outcome.Responded? && !ResponseOk(outcome.response) ==> r == ErrorKind(outcome.response)
      ensures outcome.Responded? && ResponseOk(outcome.response) && outcome.response.body.Unparseable? ==>
        r == Err(NetworkError(outcome.response.body.reason))
      ensures outcome.Responded? && ResponseOk(outcome.response) && outcome.response.body.Parsed? ==>
        r == Ok(outcome.response.body.data)
    {
      match outcome
      case Thrown(m) => Err(NetworkError(m))
      case Responded(response) =>
        if !ResponseOk(response) then ErrorKind(response)
        else match response.body
          case Parsed(data, _) => Ok(data)
          case Unparseable(reason) => Err(NetworkError(reason))
    }
  }

  // ---------------------------------------------------------------------
  // Properties
  // ---------------------------------------------------------------------

  /** A fetch succeeds exactly when a 2xx response arrived whose body parsed, and then it yields that body. */
  lemma FetchSucceedsIff<T>(c: GithubClient, outcome: FetchOutcome<T>)
    ensures c.Fetch(outcome).Success? <==>
      outcome.Responded? && ResponseOk(outcome.response) && outcome.response.body.Parsed?
    ensures c.Fetch(outcome).Success? ==> c.Fetch(outcome).value == outcome.response.body.data
  {
  }

  /** Only a 403 whose remaining-requests header is exactly `"0"` is a rate limit. */
  lemma RateLimitOnlyWhenExhausted<T>(c: GithubClient, r: Response<T>)
    ensures c.ErrorKind(r).error.RateLimit? <==>
      r.status == 403 && Header(r, "x-ratelimit-remaining") == Some("0")
  {
  }

  /** Every other kind carries the response's message. */
  lemma ErrorKindMessage<T>(c: GithubClient, r: Response<T>)
    ensures !c.ErrorKind(r).error.RateLimit? ==> c.ErrorKind(r).error.message == Message(r)
  {
  }

  /** The kind as a function of the status alone, outside the 403 case. */
  lemma ErrorKindByStatus<T>(c: GithubClient, r: Response<T>)
    requires r.status != 403
    ensures Kind(c.ErrorKind(r).error) ==
      if r.status == 401 then "bad_auth"
      else if r.status == 404 then "not_found"
      else if r.status == 422 then "validation"
      else if r.status >= 500 then "server_error"
      else "network_error"
  {
  }

  /** A missing reset header makes the reset time the epoch. */
  lemma ResetDateMissing()
    ensures ResetDate(None) == ValidDate(0)
  {
  }

  /** A reset header of n decimal seconds is n * 1000 ms after the epoch, when representable. */
  lemma ResetDateSeconds(n: nat)
    requires n <= 8_640_000_000_000
    ensures ResetDate(Some(NatDecimal(n))) == ValidDate(n * 1000)
  {
    NumberOfNatDecimal(n);
  }

  /** A reset header that is no number gives the invalid date. */
  lemma ResetDateNotANumber()
    ensures ResetDate(Some("soon")) == InvalidDate
  {
    assert !IsJsWhitespace('s') && !IsJsWhitespace('n');
    TrimNoop("soon");
    assert !IsDigit("soon"[0]);
  }

  /** A body without a message gives `HTTP <status>`. */
  lemma MessageFallback<T>(r: Response<T>)
    requires r.status == 404 && r.body.Unparseable?
    ensures Message(r) == "HTTP 404"
  {
    assert NatDecimal(404) == "404";
  }

  /** `Authorization` is sent iff the token is a non-empty string, and `Accept` always. */
  lemma HeadersAuthorization(c: GithubClient)
    ensures (exists i :: 0 <= i < |c.Headers()| && c.Headers()[i].0 == "Authorization") <==> Truthy(c.config.token)
    ensures forall i :: 0 <= i < |c.Headers()| && c.Headers()[i].0 == "Authorization" ==>
      c.Headers()[i].1 == "Bearer " + c.config.token.value
  {
    var h := c.Headers();
    if Truthy(c.config.token) {
      assert h[1].0 == "Authorization";
    }
  }
}
