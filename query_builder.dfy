/**
 * Search-query construction (packages/core/src/github/query-builder.ts):
 * the structured search parameters become a GitHub search expression, and
 * the expression with the paging and sorting options becomes the query
 * string of the search request.
 */
module QueryBuilder {
  import opened Nullish
  import opened JsText
  import opened GitHubTypes
  import opened FormUrlEncoded

  // ---------------------------------------------------------------------
  // The search expression
  // ---------------------------------------------------------------------

  /** The clause kinds of the search grammar, in the order they are pushed. */
  datatype Clause =
    | LanguageIs(language: string)
    | KindIs(kind: IssueKind)
    | NoAssignee
    | OrgIs(org: string)
    | RepoIs(repo: string)
    | StateIs(state: GitHubIssueState)
    | LabelIs(name: string)

  /** The clause's text; a label is quoted but inserted unescaped. */
  function Text(c: Clause): (t: string)
    ensures t != [] && t[0] in "lino:rs"
    ensures c.LabelIs? ==> t[|t| - 1] == '"'
  {
    match c
    case LanguageIs(v) => "language:" + v
    case KindIs(k) => "is:" + KindName(k)
    case NoAssignee => "no:assignee"
    case OrgIs(v) => "org:" + v
    case RepoIs(v) => "repo:" + v
    case StateIs(s) => "state:" + StateName(s)
    case LabelIs(l) => "label:\"" + l + "\""
  }

  /** The position of a clause kind in the fixed order. */
  function Rank(c: Clause): nat {
    match c
    case LanguageIs(_) => 0
    case KindIs(_) => 1
    case NoAssignee => 2
    case OrgIs(_) => 3
    case RepoIs(_) => 4
    case StateIs(_) => 5
    case LabelIs(_) => 6
  }

  function Texts(cs: seq<Clause>): (r: seq<string>)
    ensures |r| == |cs|
    ensures forall i :: 0 <= i < |cs| ==> r[i] == Text(cs[i])
  {
    if cs == [] then [] else [Text(cs[0])] + Texts(cs[1..])
  }

  /** `[c]` when `cond` holds, else nothing: one conditional `push`. */
  function If(cond: bool, c: Clause): (r: seq<Clause>)
    ensures |r| <= 1 && (cond <==> |r| == 1)
    ensures forall i :: 0 <= i < |r| ==> r[i] == c
  {
    if cond then [c] else []
  }

  /** One label clause per label, in input order. */
  function LabelClauses(labels: seq<string>): (r: seq<Clause>)
    ensures |r| == |labels|
    ensures forall i :: 0 <= i < |labels| ==> r[i] == LabelIs(labels[i])
  {
    if labels == [] then [] else [LabelIs(labels[0])] + LabelClauses(labels[1..])
  }

  /** The clauses before the labels: language, is, `no:assignee`, org, repo, state, each only when truthy. */
  function HeadClauses(p: IssueSearchParams): seq<Clause> {
    If(Truthy(p.language), LanguageIs(p.language.GetOr("")))
    + If(p.isKind.Some?, KindIs(p.isKind.GetOr(IssueOnly)))
    + If(p.noAssignee == Some(true), NoAssignee)
    + If(Truthy(p.org), OrgIs(p.org.GetOr("")))
    + If(Truthy(p.repo), RepoIs(p.repo.GetOr("")))
    + If(p.state.Some?, StateIs(p.state.GetOr(Open)))
  }

  /** Without a kind, an assignee filter or a state, only the language, org and repo clauses come first. */
  lemma PlainHeadClauses(p: IssueSearchParams)
    requires p.isKind.None? && p.noAssignee.None? && p.state.None?
    ensures Clauses(p) ==
      If(Truthy(p.language), LanguageIs(p.language.GetOr("")))
      + If(Truthy(p.org), OrgIs(p.org.GetOr("")))
      + If(Truthy(p.repo), RepoIs(p.repo.GetOr("")))
      + LabelClauses(p.labels.GetOr([]))
  {
    var a, d, e := If(Truthy(p.language), LanguageIs(p.language.GetOr(""))),
      If(Truthy(p.org), OrgIs(p.org.GetOr(""))), If(Truthy(p.repo), RepoIs(p.repo.GetOr("")));
    assert HeadClauses(p) == a + [] + [] + d + e + [];
    assert a + [] + [] + d + e + [] == a + d + e;
  }

  /** Every clause of a structured query, in push order. An empty label array is still truthy and adds nothing. */
  function Clauses(p: IssueSearchParams): seq<Clause> {
    HeadClauses(p) + LabelClauses(p.labels.GetOr([]))
  }

  /** `buildIssueQuery`: a truthy raw query verbatim, else the clauses joined by single spaces and trimmed. */
  function IssueQuery(p: IssueSearchParams): string {
    if Truthy(p.rawQuery) then p.rawQuery.value
    else Trim(Join(" ", Texts(Clauses(p))))
  }

  /** The accumulating implementation: a truthy raw query returns at once; otherwise the collected clauses are joined and trimmed. */
  method BuildIssueQuery(params: IssueSearchParams) returns (q: string)
    ensures q == IssueQuery(params)
  {
    if Truthy(params.rawQuery) {
      return params.rawQuery.value;
    }
    var parts := CollectClauses(params);
    q := Trim(Join(" ", Texts(parts)));
  }

  /** The clauses pushed onto `parts`: the conditional pushes, then the labels in a loop. */
  method CollectClauses(params: IssueSearchParams) returns (parts: seq<Clause>)
    ensures parts == Clauses(params)
  {
    parts := PushHeadClauses(params);
    if params.labels.Some? {
      parts := PushLabelClauses(parts, params.labels.value);
    }
  }

  /** The label loop: one `label:"X"` clause pushed per label, in order. */
  method PushLabelClauses(head: seq<Clause>, labels: seq<string>) returns (parts: seq<Clause>)
    ensures parts == head + LabelClauses(labels)
  {
    parts := head;
    for i := 0 to |labels|
      invariant parts == head + LabelClauses(labels[..i])
    {
      assert LabelClauses(labels[..i + 1]) == LabelClauses(labels[..i]) + [LabelIs(labels[i])];
      parts := parts + [LabelIs(labels[i])];
    }
    assert labels[..|labels|] == labels;
  }

  /** The chain of conditional pushes before the label loop. */
  method PushHeadClauses(params: IssueSearchParams) returns (parts: seq<Clause>)
    ensures parts == HeadClauses(params)
  {
    parts := [];
    if Truthy(params.language) {
      parts := parts + [LanguageIs(params.language.value)];
    }
    ghost var p0 := parts;
    assert p0 == If(Truthy(params.language), LanguageIs(params.language.GetOr("")));
    if params.isKind.Some? {
      parts := parts + [KindIs(params.isKind.value)];
    }
    ghost var p1 := parts;
    assert p1 == p0 + If(params.isKind.Some?, KindIs(params.isKind.GetOr(IssueOnly)));
    if params.noAssignee == Some(true) {
      parts := parts + [NoAssignee];
    }
    ghost var p2 := parts;
    assert p2 == p1 + If(params.noAssignee == Some(true), NoAssignee);
    if Truthy(params.org) {
      parts := parts + [OrgIs(params.org.value)];
    }
    ghost var p3 := parts;
    assert p3 == p2 + If(Truthy(params.org), OrgIs(params.org.GetOr("")));
    if Truthy(params.repo) {
      parts := parts + [RepoIs(params.repo.value)];
    }
    ghost var p4 := parts;
    assert p4 == p3 + If(Truthy(params.repo), RepoIs(params.repo.GetOr("")));
    if params.state.Some? {
      parts := parts + [StateIs(params.state.value)];
    }
    assert parts == p4 + If(params.state.Some?, StateIs(params.state.GetOr(Open)));
  }

  // ---------------------------------------------------------------------
  // Properties of the search expression
  // ---------------------------------------------------------------------

  /** Every clause kind comes before any of a later kind, and only labels repeat a kind. */
  predicate InOrder(cs: seq<Clause>) {
    forall i, j :: 0 <= i < j < |cs| ==> Rank(cs[i]) < Rank(cs[j]) || (cs[i].LabelIs? && cs[j].LabelIs?)
  }

  predicate RanksBelow(cs: seq<Clause>, k: nat) {
    forall i :: 0 <= i < |cs| ==> Rank(cs[i]) < k
  }

  predicate AtMostOneOfRank(cs: seq<Clause>, k: nat) {
    |cs| <= 1 && forall i :: 0 <= i < |cs| ==> Rank(cs[i]) == k
  }

  lemma InOrderPush(a: seq<Clause>, b: seq<Clause>, k: nat)
    requires InOrder(a) && RanksBelow(a, k) && AtMostOneOfRank(b, k)
    ensures InOrder(a + b) && RanksBelow(a + b, k + 1)
  {
  }

  lemma InOrderHead(x0: seq<Clause>, x1: seq<Clause>, x2: seq<Clause>, x3: seq<Clause>, x4: seq<Clause>, x5: seq<Clause>)
    requires AtMostOneOfRank(x0, 0) && AtMostOneOfRank(x1, 1) && AtMostOneOfRank(x2, 2)
    requires AtMostOneOfRank(x3, 3) && AtMostOneOfRank(x4, 4) && AtMostOneOfRank(x5, 5)
    ensures InOrder(x0 + x1 + x2 + x3 + x4 + x5) && RanksBelow(x0 + x1 + x2 + x3 + x4 + x5, 6)
  {
    InOrderPush(x0, x1, 1);
    InOrderPush(x0 + x1, x2, 2);
    InOrderPush(x0 + x1 + x2, x3, 3);
    InOrderPush(x0 + x1 + x2 + x3, x4, 4);
    InOrderPush(x0 + x1 + x2 + x3 + x4, x5, 5);
  }

  lemma InOrderLabels(h: seq<Clause>, labels: seq<string>)
    requires InOrder(h) && RanksBelow(h, 6)
    ensures InOrder(h + LabelClauses(labels))
  {
    var hl := h + LabelClauses(labels);
    forall i, j | 0 <= i < j < |hl|
      ensures Rank(hl[i]) < Rank(hl[j]) || (hl[i].LabelIs? && hl[j].LabelIs?)
    {
      if j < |h| {
        assert hl[i] == h[i] && hl[j] == h[j];
      } else if i >= |h| {
        assert hl[i].LabelIs? && hl[j].LabelIs?;
      } else {
        assert hl[i] == h[i] && hl[j].LabelIs?;
      }
    }
  }

  /**
   * The clauses follow the fixed order language, is, `no:assignee`, org,
   * repo, state, labels: each of the first six kinds occurs at most once and
   * no clause comes after one of a later kind.
   */
  lemma ClauseOrder(p: IssueSearchParams)
    ensures InOrder(Clauses(p))
  {
    var x0 := If(Truthy(p.language), LanguageIs(p.language.GetOr("")));
    var x1 := If(p.isKind.Some?, KindIs(p.isKind.GetOr(IssueOnly)));
    var x2 := If(p.noAssignee == Some(true), NoAssignee);
    var x3 := If(Truthy(p.org), OrgIs(p.org.GetOr("")));
    var x4 := If(Truthy(p.repo), RepoIs(p.repo.GetOr("")));
    var x5 := If(p.state.Some?, StateIs(p.state.GetOr(Open)));
    InOrderHead(x0, x1, x2, x3, x4, x5);
    assert HeadClauses(p) == x0 + x1 + x2 + x3 + x4 + x5;
    InOrderLabels(HeadClauses(p), p.labels.GetOr([]));
  }

  /** A truthy raw query wins whatever the other fields are; an empty one is ignored. */
  lemma RawQuery(p: IssueSearchParams)
    ensures Truthy(p.rawQuery) ==> IssueQuery(p) == p.rawQuery.value
    ensures p.rawQuery == Some("") ==> IssueQuery(p) == IssueQuery(p.(rawQuery := None))
  {
  }

  /** The empty parameter set gives the empty expression. */
  lemma EmptyQuery()
    ensures Clauses(EMPTY_PARAMS) == []
    ensures IssueQuery(EMPTY_PARAMS) == ""
  {
  }

  /** How many clauses there are: one per truthy field and one per label. */
  lemma ClauseCount(p: IssueSearchParams)
    ensures |Clauses(p)| ==
      (if Truthy(p.language) then 1 else 0) + (if p.isKind.Some? then 1 else 0)
      + (if p.noAssignee == Some(true) then 1 else 0) + (if Truthy(p.org) then 1 else 0)
      + (if Truthy(p.repo) then 1 else 0) + (if p.state.Some? then 1 else 0)
      + |p.labels.GetOr([])|
  {
  }

  /**
   * With at least one label the expression ends with `"` and every clause
   * starts with a letter, so trimming changes nothing: the expression is
   * exactly the clause texts joined by single spaces.
   */
  lemma QueryWithLabelsUntrimmed(p: IssueSearchParams)
    requires !Truthy(p.rawQuery) && p.labels.Some? && p.labels.value != []
    ensures IssueQuery(p) == Join(" ", Texts(Clauses(p)))
  {
    var cs := Clauses(p);
    assert cs[|cs| - 1] == LabelIs(p.labels.value[|p.labels.value| - 1]);
    EndsWithLabelUntrimmed(cs);
  }

  lemma NotWhitespace(c: char)
    requires c in "lino:rs" || c == '"'
    ensures !IsJsWhitespace(c)
  {
  }

  lemma EndsWithLabelUntrimmed(cs: seq<Clause>)
    requires cs != [] && cs[|cs| - 1].LabelIs?
    ensures Trim(Join(" ", Texts(cs))) == Join(" ", Texts(cs))
  {
    var ts := Texts(cs);
    var first, last := Text(cs[0]), Text(cs[|cs| - 1]);
    NotWhitespace(first[0]);
    NotWhitespace(last[|last| - 1]);
    assert ts[0] == first && ts[|ts| - 1] == last;
    JoinTrimNoop(" ", ts);
  }

  // ---------------------------------------------------------------------
  // The query string
  // ---------------------------------------------------------------------

  /** The position of a key in the fixed order q, sort, order, per_page, page; 5 for any other name. */
  function KeyRank(k: string): (r: nat)
    ensures r <= 5
  {
    if k == "q" then 0 else if k == "sort" then 1 else if k == "order" then 2
    else if k == "per_page" then 3 else if k == "page" then 4 else 5
  }

  /** The five names `buildQuery` sets, in their order. */
  lemma KeyRanks()
    ensures KeyRank("q") == 0 && KeyRank("sort") == 1 && KeyRank("order") == 2
    ensures KeyRank("per_page") == 3 && KeyRank("page") == 4
  {
  }

  /** `[(name, value)]` when `cond` holds, else nothing: one conditional `set` on a name not yet present. */
  function Opt(cond: bool, name: string, value: string): (r: seq<Pair>)
    ensures |r| <= 1 && (cond <==> |r| == 1)
    ensures forall i :: 0 <= i < |r| ==> r[i] == (name, value)
  {
    if cond then [(name, value)] else []
  }

  /**
   * The pairs `buildQuery` sets for the expression `q`, in order: `q` when
   * non-empty, then `sort`, `order`, `per_page` and `page` when truthy; a
   * page size or page of 0 is falsy and omitted.
   */
  function PairsFor(q: string, p: IssueSearchParams): seq<Pair> {
    Opt(|q| > 0, "q", q)
    + Opt(p.sort.Some?, "sort", SortName(p.sort.GetOr(Created)))
    + Opt(p.order.Some?, "order", OrderName(p.order.GetOr(Asc)))
    + Opt(p.perPage.GetOr(0) != 0, "per_page", Decimal(p.perPage.GetOr(0)))
    + Opt(p.page.GetOr(0) != 0, "page", Decimal(p.page.GetOr(0)))
  }

  function QueryPairs(p: IssueSearchParams): seq<Pair> {
    PairsFor(IssueQuery(p), p)
  }

  /** `buildQuery`: the expression, the pairs set on the `URLSearchParams`, then its serialization. */
  method BuildQuery(params: IssueSearchParams) returns (s: string)
    ensures s == Serialize(QueryPairs(params))
  {
    var q := BuildIssueQuery(params);
    var pairs := SetQueryPairs(q, params);
    s := Serialize(pairs);
  }

  /** The `set` calls on the initially empty `URLSearchParams`, key by key. */
  method SetQueryPairs(q: string, params: IssueSearchParams) returns (pairs: seq<Pair>)
    ensures pairs == PairsFor(q, params)
  {
    KeyRanks();
    pairs := SetWhen([], |q| > 0, "q", q);
    assert pairs == Opt(|q| > 0, "q", q);
    pairs := SetWhen(pairs, params.sort.Some?, "sort", SortName(params.sort.GetOr(Created)));
    pairs := SetWhen(pairs, params.order.Some?, "order", OrderName(params.order.GetOr(Asc)));
    pairs := SetWhen(pairs, params.perPage.GetOr(0) != 0, "per_page", Decimal(params.perPage.GetOr(0)));
    pairs := SetWhen(pairs, params.page.GetOr(0) != 0, "page", Decimal(params.page.GetOr(0)));
  }

  /**
   * `if (cond) urlSearchParams.set(name, value)` where every name set so far
   * comes earlier in the key order: the name is new, so `set` appends.
   */
  method SetWhen(pairs: seq<Pair>, cond: bool, name: string, value: string) returns (r: seq<Pair>)
    requires forall i :: 0 <= i < |pairs| ==> KeyRank(pairs[i].0) < KeyRank(name)
    ensures r == pairs + Opt(cond, name, value)
    ensures forall i :: 0 <= i < |r| ==> KeyRank(r[i].0) <= KeyRank(name)
  {
    r := pairs;
    if cond {
      NotYetSet(pairs, name);
      r := SetPair(pairs, name, value);
    }
  }

  /** A name ranked differently from every name in the list occurs in it zero times. */
  lemma {:induction false} NotYetSet(pairs: seq<Pair>, name: string)
    requires forall i :: 0 <= i < |pairs| ==> KeyRank(pairs[i].0) != KeyRank(name)
    ensures CountName(pairs, name) == 0
  {
    if pairs != [] {
      NotYetSet(pairs[1..], name);
    }
  }

  /** Key ranks strictly increase along `r`, all of them below `k`. */
  predicate KeysRanked(r: seq<Pair>, k: nat) {
    && (forall i :: 0 <= i < |r| ==> KeyRank(r[i].0) < k)
    && (forall i, j :: 0 <= i < j < |r| ==> KeyRank(r[i].0) < KeyRank(r[j].0))
  }

  lemma KeysRankedPush(a: seq<Pair>, b: seq<Pair>, k: nat)
    requires KeysRanked(a, k) && |b| <= 1 && forall i :: 0 <= i < |b| ==> KeyRank(b[i].0) == k
    ensures KeysRanked(a + b, k + 1)
  {
  }

  lemma KeysRankedFive(x0: seq<Pair>, x1: seq<Pair>, x2: seq<Pair>, x3: seq<Pair>, x4: seq<Pair>)
    requires |x0| <= 1 && forall i :: 0 <= i < |x0| ==> KeyRank(x0[i].0) == 0
    requires |x1| <= 1 && forall i :: 0 <= i < |x1| ==> KeyRank(x1[i].0) == 1
    requires |x2| <= 1 && forall i :: 0 <= i < |x2| ==> KeyRank(x2[i].0) == 2
    requires |x3| <= 1 && forall i :: 0 <= i < |x3| ==> KeyRank(x3[i].0) == 3
    requires |x4| <= 1 && forall i :: 0 <= i < |x4| ==> KeyRank(x4[i].0) == 4
    ensures KeysRanked(x0 + x1 + x2 + x3 + x4, 5)
  {
    KeysRankedPush(x0, x1, 1);
    KeysRankedPush(x0 + x1, x2, 2);
    KeysRankedPush(x0 + x1 + x2, x3, 3);
    KeysRankedPush(x0 + x1 + x2 + x3, x4, 4);
  }

  /** The keys come in the fixed order q, sort, order, per_page, page, so each occurs at most once. */
  lemma QueryKeyOrder(p: IssueSearchParams)
    ensures KeysRanked(QueryPairs(p), 5)
  {
    PairsKeyOrder(IssueQuery(p), p);
  }

  lemma PairsKeyOrder(q: string, p: IssueSearchParams)
    ensures KeysRanked(PairsFor(q, p), 5)
  {
    KeysRankedFive(Opt(|q| > 0, "q", q),
      Opt(p.sort.Some?, "sort", SortName(p.sort.GetOr(Created))),
      Opt(p.order.Some?, "order", OrderName(p.order.GetOr(Asc))),
      Opt(p.perPage.GetOr(0) != 0, "per_page", Decimal(p.perPage.GetOr(0))),
      Opt(p.page.GetOr(0) != 0, "page", Decimal(p.page.GetOr(0))));
  }

  /** In a list with strictly increasing key ranks no name occurs twice. */
  lemma {:induction false} KeysOnce(pairs: seq<Pair>, name: string)
    requires KeysRanked(pairs, 5)
    ensures CountName(pairs, name) <= 1
  {
    if pairs != [] {
      assert KeysRanked(pairs[1..], 5);
      if pairs[0].0 == name {
        forall i | 0 <= i < |pairs[1..]|
          ensures KeyRank(pairs[1..][i].0) != KeyRank(name)
        {
          assert pairs[1..][i] == pairs[i + 1];
        }
        NotYetSet(pairs[1..], name);
      } else {
        KeysOnce(pairs[1..], name);
      }
    }
  }

  /** Every key of the query string occurs at most once. */
  lemma QueryKeysOnce(p: IssueSearchParams, name: string)
    ensures CountName(QueryPairs(p), name) <= 1
  {
    QueryKeyOrder(p);
    KeysOnce(QueryPairs(p), name);
  }

  /** The names that occur in a list of pairs. */
  function Names(pairs: seq<Pair>): set<string> {
    set i | 0 <= i < |pairs| :: pairs[i].0
  }

  lemma NamesAppend(a: seq<Pair>, b: seq<Pair>)
    ensures Names(a + b) == Names(a) + Names(b)
  {
    forall n | n in Names(a + b)
      ensures n in Names(a) + Names(b)
    {
      var i :| 0 <= i < |a + b| && (a + b)[i].0 == n;
      if i >= |a| {
        assert b[i - |a|].0 == n;
      }
    }
    forall n | n in Names(a) + Names(b)
      ensures n in Names(a + b)
    {
      if n in Names(b) {
        var i :| 0 <= i < |b| && b[i].0 == n;
        assert (a + b)[|a| + i].0 == n;
      } else {
        var i :| 0 <= i < |a| && a[i].0 == n;
        assert (a + b)[i].0 == n;
      }
    }
  }

  lemma NamesOpt(cond: bool, name: string, value: string)
    ensures Names(Opt(cond, name, value)) == if cond then {name} else {}
  {
    if cond {
      assert Opt(cond, name, value)[0].0 == name;
    }
  }

  /**
   * Which keys the query string has: `q` iff the expression is non-empty,
   * `sort` and `order` iff given, `per_page` and `page` iff given and
   * non-zero.
   */
  lemma QueryKeys(p: IssueSearchParams)
    ensures Names(QueryPairs(p)) ==
      (if |IssueQuery(p)| > 0 then {"q"} else {})
      + (if p.sort.Some? then {"sort"} else {})
      + (if p.order.Some? then {"order"} else {})
      + (if p.perPage.Some? && p.perPage.value != 0 then {"per_page"} else {})
      + (if p.page.Some? && p.page.value != 0 then {"page"} else {})
  {
    var q := IssueQuery(p);
    var x0 := Opt(|q| > 0, "q", q);
    var x1 := Opt(p.sort.Some?, "sort", SortName(p.sort.GetOr(Created)));
    var x2 := Opt(p.order.Some?, "order", OrderName(p.order.GetOr(Asc)));
    var x3 := Opt(p.perPage.GetOr(0) != 0, "per_page", Decimal(p.perPage.GetOr(0)));
    var x4 := Opt(p.page.GetOr(0) != 0, "page", Decimal(p.page.GetOr(0)));
    NamesOpt(|q| > 0, "q", q);
    NamesOpt(p.sort.Some?, "sort", SortName(p.sort.GetOr(Created)));
    NamesOpt(p.order.Some?, "order", OrderName(p.order.GetOr(Asc)));
    NamesOpt(p.perPage.GetOr(0) != 0, "per_page", Decimal(p.perPage.GetOr(0)));
    NamesOpt(p.page.GetOr(0) != 0, "page", Decimal(p.page.GetOr(0)));
    NamesAppend(x0, x1);
    NamesAppend(x0 + x1, x2);
    NamesAppend(x0 + x1 + x2, x3);
    NamesAppend(x0 + x1 + x2 + x3, x4);
  }

  /** When present, `q` is the first pair and carries the expression. */
  lemma QueryFirst(p: IssueSearchParams)
    requires |IssueQuery(p)| > 0
    ensures QueryPairs(p)[0] == ("q", IssueQuery(p))
  {
  }

  /** The query string parses back to the pairs, as UTF-8, in the order they were set. */
  lemma QueryStringRoundTrip(p: IssueSearchParams)
    ensures var r := QueryPairs(p);
      Parse(Serialize(r)) == seq(|r|, i requires 0 <= i < |r| => (Utf8Encode(r[i].0), Utf8Encode(r[i].1)))
  {
    SerializeRoundTrip(QueryPairs(p));
  }
}
