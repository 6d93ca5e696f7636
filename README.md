# good-first-issue, modelled in Dafny

`good-first-issue` is a command-line tool. `find` runs a GitHub issue search for
beginner-friendly labels, looks up each result's repository once, and prints a
fixed-width table. `open <n>` then opens the n-th issue of the last search,
using a list of URLs that the search saved.

This project models the deterministic core of that pipeline, one module per
source file:

| module | source file | form |
|---|---|---|
| `Results` (result.dfy) | packages/core/src/result.ts | datatype and functions, with the monad laws |
| `GitHubTypes` (github_types.dfy) | packages/core/src/github/types.ts | datatypes: issue, repository, enriched issue, search params, the six error kinds |
| `QueryBuilder` (query_builder.dfy) | packages/core/src/github/query-builder.ts | methods that push clauses and set pairs, proved against specification functions |
| `FormUrlEncoded` (form_urlencoded.dfy) | the `URLSearchParams` serializer used by query-builder.ts | the application/x-www-form-urlencoded serializer and parser of section 5 of the WHATWG URL Standard, with a round trip |
| `GitHubClient` (client.dfy) | packages/core/src/github/client.ts | a class holding its `config`; error classification, headers, and the outcome of `fetch` |
| `FindConstants` (find_constants.dfy) | packages/cli/src/commands/find/constants.ts | constants |
| `FindUtils` (find_utils.dfy) | packages/cli/src/commands/find/utils.ts | width table, the `sliceWidth` loop, star and age formatting, the repository join |
| `CommandUtils` (command_utils.dfy) | packages/cli/src/commands/utils.ts | the `displayWidth` loop, padding and truncation |
| `FindFormatter` (find_formatter.dfy) | packages/cli/src/commands/find/formatter.ts | borders, header, rows, the whole table |
| `Formatter` (legacy_formatter.dfy) | packages/cli/src/formatter.ts | the older table, with the issue number in the `#` column and its own width helpers |
| `Find` (find_index.dfy) | packages/cli/src/commands/find/index.ts | the `find` command: flags to search params, search, enrichment |
| `OpenUtils` (open_utils.dfy) | packages/cli/src/commands/open/utils.ts | the saved URL list, the results path, and the 1-based lookup |
| `JsText`, `Nullish`, `Cli` | JavaScript built-ins and `CliFlags` | `trim`, `join`, `split`, `Number()`, decimal rendering; `undefined` as `Option`; the parsed flags |

Strings are `seq<char>`, so one element is one code point. This is what the
source's `for (const char of str)` loops walk over.

Everything outside the program is a parameter of the model:
- the clock: `elapsed`, the milliseconds since a timestamp;
- the terminal styler `styleText`: `style`;
- the zero-width test that `commands/utils.ts` imports but that is never defined: `zeroWidth`;
- the GitHub API: `search` and `getRepository`, functions returning `Result`;
- the temporary directory: `tmpDir`;
- the current directory's file names: `files`.

## Model

| member | source | states |
|---|---|---|
| Results.Ok | packages/core/src/result.ts:29-31 | `ok(v)` is a success holding `v` |
| Results.Err | packages/core/src/result.ts:41-43 | `err(e)` is a failure holding `e` |
| Results.IsOk | packages/core/src/result.ts:134-136 | `isOk` holds only of a success, which is `ok` of its value |
| Results.IsErr | packages/core/src/result.ts:141-143 | `isErr` is the negation of `isOk`, and holds only of a failure, which is `err` of its error |
| Results.OkXorErr | packages/core/src/result.ts:134-143 | `isOk` is always the negation of `isErr`; `isOk` holds exactly of the values `ok` builds, and `isErr` of those `err` builds |
| Results.Unwrap | packages/core/src/result.ts:53-59 | only a success can be unwrapped (the source throws otherwise), and the value returned is the one it holds |
| Results.UnwrapOk | packages/core/src/result.ts:53-59 | `unwrap(ok(v)) == v` |
| Results.UnwrapOr | packages/core/src/result.ts:69-75 | the held value for a success, the default for a failure |
| Results.Map | packages/core/src/result.ts:86-92 | a success maps to `ok(fn(value))`; a failure keeps its error unchanged |
| Results.MapIdentity | packages/core/src/result.ts:86-92 | mapping the identity function changes nothing |
| Results.MapCompose | packages/core/src/result.ts:86-92 | mapping `f` then `g` equals mapping their composition |
| Results.FlatMap | packages/core/src/result.ts:103-111 | a success gives `fn(value)`; a failure keeps its error, and `fn` is not applied |
| Results.FlatMapLeftIdentity | packages/core/src/result.ts:103-111 | `flatMap(ok(v), fn) == fn(v)` |
| Results.FlatMapFailure | packages/core/src/result.ts:103-111 | `flatMap(err(e), fn) == err(e)` |
| Results.FlatMapRightIdentity | packages/core/src/result.ts:103-111 | `flatMap(r, ok) == r` |
| Results.FlatMapOkIsMap | packages/core/src/result.ts:86-111 | `flatMap(r, v => ok(f(v))) == map(r, f)` |
| Results.FlatMapAssociative | packages/core/src/result.ts:103-111 | `flatMap` is associative |
| Results.UnwrapOrMap | packages/core/src/result.ts:69-92 | `unwrapOr(map(r, f), d)` is `f(value)` for a success and `d` for a failure |
| GitHubTypes.Kind | packages/core/src/github/types.ts:83-89 | every error has one of the six `kind` strings |
| GitHubTypes.KindDeterminesVariant | packages/core/src/github/types.ts:83-89 | two errors with the same `kind` have the same variant, so `rate_limit` is the only kind carrying a reset time and the others carry a message |
| GitHubTypes.SixKinds | packages/core/src/github/types.ts:83-89 | there are exactly six kinds, and every one of them is the kind of some error |
| GitHubTypes.DateOf | packages/core/src/github/client.ts:49 | a `Date` built from a millisecond count is valid exactly within ±8.64e15 ms, and then holds that count |
| QueryBuilder.Text | packages/core/src/github/query-builder.ts:7-15 | each clause renders with its own prefix; a label clause is closed by a quote |
| QueryBuilder.Texts | packages/core/src/github/query-builder.ts:19 | the rendered clauses, one per clause, in order |
| QueryBuilder.If | packages/core/src/github/query-builder.ts:7-12 | a guarded push adds exactly one clause when its condition holds, and none otherwise |
| QueryBuilder.LabelClauses | packages/core/src/github/query-builder.ts:13-17 | N labels give exactly N `label:"X"` clauses, in input order, each label unescaped |
| QueryBuilder.IssueQuery | packages/core/src/github/query-builder.ts:3-20 | the expression `buildIssueQuery` returns; its order, raw-query, empty and count properties are the lemmas below |
| QueryBuilder.BuildIssueQuery | packages/core/src/github/query-builder.ts:3-20 | returns `IssueQuery(params)`: `rawQuery` when truthy, otherwise the trimmed, space-joined clauses |
| QueryBuilder.CollectClauses | packages/core/src/github/query-builder.ts:4-17 | the `parts` array after the if-chain and the label loop equals `Clauses(params)` |
| QueryBuilder.PushLabelClauses | packages/core/src/github/query-builder.ts:13-17 | the label loop appends one `label:"X"` clause per label, in order, after what was pushed before |
| QueryBuilder.PushHeadClauses | packages/core/src/github/query-builder.ts:7-12 | the six guarded pushes produce the head clauses in source order |
| QueryBuilder.PlainHeadClauses | packages/core/src/github/query-builder.ts:7-12 | with no kind, assignee or state filter, only the language, org and repo clauses precede the labels |
| QueryBuilder.InOrderPush | packages/core/src/github/query-builder.ts:7-17 | appending at most one clause of the next rank keeps the clauses in order |
| QueryBuilder.InOrderHead | packages/core/src/github/query-builder.ts:7-12 | six guarded pushes of ranks 0..5 are in rank order |
| QueryBuilder.InOrderLabels | packages/core/src/github/query-builder.ts:13-17 | label clauses after the head clauses keep the order |
| QueryBuilder.ClauseOrder | packages/core/src/github/query-builder.ts:7-17 | clauses come in the fixed order language, is, `no:assignee`, org, repo, state, labels |
| QueryBuilder.RawQuery | packages/core/src/github/query-builder.ts:6 | a non-empty `rawQuery` is returned verbatim whatever the other fields; an empty one is ignored |
| QueryBuilder.EmptyQuery | packages/core/src/github/query-builder.ts:7-19 | all-absent params give no clause and the query `""` |
| QueryBuilder.ClauseCount | packages/core/src/github/query-builder.ts:7-17 | one clause per truthy field, plus one per label, and no other |
| QueryBuilder.QueryWithLabelsUntrimmed | packages/core/src/github/query-builder.ts:19 | with at least one label the final `trim()` changes nothing: the query is the space-joined clauses |
| QueryBuilder.NotWhitespace | packages/core/src/github/query-builder.ts:19 | the first and last characters of clauses are not trimmed away |
| QueryBuilder.EndsWithLabelUntrimmed | packages/core/src/github/query-builder.ts:19 | a clause list ending in a label is left alone by `trim()` |
| QueryBuilder.KeyRank | packages/core/src/github/query-builder.ts:26-30 | every key has a rank of at most five |
| QueryBuilder.KeyRanks | packages/core/src/github/query-builder.ts:26-30 | `q`, `sort`, `order`, `per_page` and `page` have ranks 0 to 4, the order in which they are set |
| QueryBuilder.Opt | packages/core/src/github/query-builder.ts:26-30 | a guarded `set` adds exactly the pair when its condition holds, and nothing otherwise |
| QueryBuilder.QueryPairs | packages/core/src/github/query-builder.ts:25-30 | the pairs set on the `URLSearchParams`; key order, uniqueness and presence are the lemmas below |
| QueryBuilder.BuildQuery | packages/core/src/github/query-builder.ts:22-33 | the result is the form-urlencoded serialization of `QueryPairs(params)` |
| QueryBuilder.SetQueryPairs | packages/core/src/github/query-builder.ts:23-30 | the five guarded `set` calls on an empty `URLSearchParams` leave exactly `PairsFor(q, params)` |
| QueryBuilder.SetWhen | packages/core/src/github/query-builder.ts:26-30 | `set` on a key not yet present appends the pair, and the keys stay ranked |
| QueryBuilder.NotYetSet | packages/core/src/github/query-builder.ts:26-30 | a key of a rank not present yet does not occur, so `set` appends |
| QueryBuilder.KeysRankedPush | packages/core/src/github/query-builder.ts:26-30 | appending at most one pair of the next rank keeps the keys in strictly increasing rank |
| QueryBuilder.KeysRankedFive | packages/core/src/github/query-builder.ts:26-30 | five guarded sets of ranks 0..4 leave keys in increasing rank |
| QueryBuilder.QueryKeyOrder | packages/core/src/github/query-builder.ts:26-30 | keys appear in the order `q`, `sort`, `order`, `per_page`, `page` |
| QueryBuilder.PairsKeyOrder | packages/core/src/github/query-builder.ts:26-30 | the same order for any built query string |
| QueryBuilder.KeysOnce | packages/core/src/github/query-builder.ts:26-30 | keys in strictly increasing rank occur at most once each |
| QueryBuilder.QueryKeysOnce | packages/core/src/github/query-builder.ts:26-30 | each key appears at most once in the output |
| QueryBuilder.NamesAppend | packages/core/src/github/query-builder.ts:26-30 | the keys of a concatenation are the union of the keys |
| QueryBuilder.NamesOpt | packages/core/src/github/query-builder.ts:26-30 | a guarded set contributes its key exactly when its condition holds |
| QueryBuilder.QueryKeys | packages/core/src/github/query-builder.ts:26-30 | `q` is present iff the built query is non-empty; `sort`/`order` iff given; `per_page`/`page` iff given and non-zero |
| QueryBuilder.QueryFirst | packages/core/src/github/query-builder.ts:25-26 | a non-empty query is the first pair, as `q` |
| QueryBuilder.QueryStringRoundTrip | packages/core/src/github/query-builder.ts:32 | parsing the serialized query string gives back every key and value (as UTF-8) in order |
| FormUrlEncoded.Utf8 | packages/core/src/github/query-builder.ts:32 | a code point encodes to 1 to 4 bytes; ASCII to its own single byte; anything else to bytes all ≥ 0x80 |
| FormUrlEncoded.Utf8EncodeAppend | packages/core/src/github/query-builder.ts:32 | UTF-8 encoding distributes over concatenation |
| FormUrlEncoded.Utf8Ascii | packages/core/src/github/query-builder.ts:32 | an ASCII string encodes to its own character codes |
| FormUrlEncoded.HexDigit | packages/core/src/github/query-builder.ts:32 | each hex digit is an ASCII hex character that decodes back to its value |
| FormUrlEncoded.EncodeByte | packages/core/src/github/query-builder.ts:32 | an encoded byte is ASCII and contains neither `&` nor `=` |
| FormUrlEncoded.Encode | packages/core/src/github/query-builder.ts:32 | an encoded string is ASCII without `&` or `=`, so it cannot break the pair structure |
| FormUrlEncoded.EncodeUnreserved | packages/core/src/github/query-builder.ts:32 | strings of unreserved ASCII bytes are left unchanged |
| FormUrlEncoded.RemoveName | packages/core/src/github/query-builder.ts:26-30 | removing a name leaves every other pair and none of that name |
| FormUrlEncoded.ReplaceFirst | packages/core/src/github/query-builder.ts:26-30 | `set` on a present name keeps exactly one pair of that name, with the new value |
| FormUrlEncoded.SetPair | packages/core/src/github/query-builder.ts:26-30 | after `set` the name occurs once with the new value, other pairs are kept, and an absent name is appended at the end |
| FormUrlEncoded.CountNameZero | packages/core/src/github/query-builder.ts:26-30 | a name with count zero is absent |
| FormUrlEncoded.CountNameAppend | packages/core/src/github/query-builder.ts:26-30 | appending a pair raises its name's count by one |
| FormUrlEncoded.EncodedPairs | packages/core/src/github/query-builder.ts:32 | each pair is rendered `encode(name)=encode(value)` |
| FormUrlEncoded.Serialize | packages/core/src/github/query-builder.ts:32 | `toString()`: the encoded pairs joined by `&`; `SerializeRoundTrip` parses it back |
| FormUrlEncoded.PlusToSpaceAppend | packages/core/src/github/query-builder.ts:32 | the `+`-to-space step of parsing distributes over concatenation |
| FormUrlEncoded.IsAsciiAppend | packages/core/src/github/query-builder.ts:32 | ASCII is closed under concatenation, and byte conversion distributes |
| FormUrlEncoded.DecodeOneByte | packages/core/src/github/query-builder.ts:32 | decoding one encoded byte gives that byte back |
| FormUrlEncoded.DecodeEncodeBytes | packages/core/src/github/query-builder.ts:32 | percent-decoding inverts the byte encoder |
| FormUrlEncoded.DecodeEncode | packages/core/src/github/query-builder.ts:32 | decoding an encoded string yields its UTF-8 bytes |
| FormUrlEncoded.IndexOfSplit | packages/core/src/github/query-builder.ts:32 | the first `=` of `name=value` is the one after the encoded name |
| FormUrlEncoded.ParsePiecesOfPairs | packages/core/src/github/query-builder.ts:32 | each encoded pair parses back to its name and value bytes |
| FormUrlEncoded.ParsePairPiece | packages/core/src/github/query-builder.ts:32 | one encoded `name=value` piece is non-empty and parses back to the pair's UTF-8 bytes |
| FormUrlEncoded.SerializeRoundTrip | packages/core/src/github/query-builder.ts:32 | parsing a serialized pair list gives back every pair, in order, as the UTF-8 bytes of its name and value |
| GitHubClient.Header | packages/core/src/github/client.ts:46-48 | `headers.get(name)` is the value when the header is present, and null otherwise |
| GitHubClient.Message | packages/core/src/github/client.ts:40-41 | `body.message` when the body parsed and has one (an empty string is kept), else `HTTP <status>` |
| GitHubClient.ResetDate | packages/core/src/github/client.ts:48-49 | a missing reset header gives `Date(0)`, a number of seconds gives that many thousand milliseconds, a non-number gives an invalid date |
| GitHubClient.GithubClient.constructor | packages/core/src/github/client.ts:11-13 | stores the given config |
| GitHubClient.GithubClient.Headers | packages/core/src/github/client.ts:32-37 | `Accept` is always first; `Authorization: Bearer <token>` follows exactly when the token is a non-empty string |
| GitHubClient.GithubClient.ErrorKind | packages/core/src/github/client.ts:39-61 | always a failure: 401 `bad_auth`; 403 with remaining `"0"` `rate_limit`, otherwise `bad_auth`; 404 `not_found`; 422 `validation`; ≥ 500 `server_error`; anything else `network_error` |
| GitHubClient.GithubClient.Fetch | packages/core/src/github/client.ts:15-30 | a thrown transport error or an unparseable 2xx body gives `network_error` with its message; a non-2xx response gives `errorKind`; a parsed 2xx body gives `ok(data)` |
| GitHubClient.FetchSucceedsIff | packages/core/src/github/client.ts:15-30 | `fetch` succeeds exactly on a parsed 2xx response, and then holds the parsed data |
| GitHubClient.RateLimitOnlyWhenExhausted | packages/core/src/github/client.ts:45-51 | `rate_limit` is reported exactly for a 403 whose remaining header is exactly `"0"` |
| GitHubClient.ErrorKindMessage | packages/core/src/github/client.ts:40-60 | every kind but `rate_limit` carries the computed message |
| GitHubClient.ErrorKindByStatus | packages/core/src/github/client.ts:43-60 | the kind for each status other than 403 |
| GitHubClient.ResetDateMissing | packages/core/src/github/client.ts:48-49 | a missing reset header gives the epoch, via `Number(null) == 0` |
| GitHubClient.ResetDateSeconds | packages/core/src/github/client.ts:48-49 | a reset of n seconds gives the date n × 1000 ms |
| GitHubClient.ResetDateNotANumber | packages/core/src/github/client.ts:48-49 | a non-numeric reset gives an invalid date |
| GitHubClient.MessageFallback | packages/core/src/github/client.ts:40-41 | an unparseable 404 body gives the message `HTTP 404` |
| GitHubClient.HeadersAuthorization | packages/core/src/github/client.ts:32-37 | an `Authorization` header is present iff the token is truthy, and it is always `Bearer <token>` |
| FindConstants.DefaultLabels | packages/cli/src/commands/find/constants.ts:1-10 | exactly eight distinct default labels |
| FindConstants.ColumnsFitEllipsis | packages/cli/src/commands/find/constants.ts:12-20 | every column is at least 3 wide, as `truncate` needs |
| FindConstants.Weeks | packages/cli/src/commands/find/constants.ts:22-23 | `ONE_WEEK` is 604 800 000 ms, 1000 × `formatAge`'s week threshold; `EIGHT_WEEKS` is 8 × `ONE_WEEK` |
| FindUtils.IsWide | packages/cli/src/commands/find/utils.ts:102-122 | every wide code point lies in U+1100–U+3FFFD |
| FindUtils.WideTable | packages/cli/src/commands/find/utils.ts:102-122 | every Hangul syllable U+AC00–U+D7AF is wide; box drawing U+2500–U+257F and everything below U+1100 are not |
| FindUtils.CharWidth | packages/cli/src/commands/find/utils.ts:94 | a code point is 2 wide when `isWide` holds and 1 wide otherwise |
| FindUtils.WideWidth | packages/cli/src/commands/find/utils.ts:93-97 | the counted width is between the length and twice the length |
| FindUtils.WideWidthAppend | packages/cli/src/commands/find/utils.ts:93-97 | width is additive over concatenation |
| FindUtils.WideWidthSingle | packages/cli/src/commands/find/utils.ts:94 | one code point counts its own width |
| FindUtils.WideWidthNarrow | packages/cli/src/commands/find/utils.ts:102-122 | text below U+1100 has width equal to its length |
| FindUtils.WidePrefix | packages/cli/src/commands/find/utils.ts:90-100 | the slice is no longer than the input, and empty for a width below 1 |
| FindUtils.WidePrefixIsPrefix | packages/cli/src/commands/find/utils.ts:90-100 | `sliceWidth(s, w)` is a prefix of `s` |
| FindUtils.WidePrefixWidth | packages/cli/src/commands/find/utils.ts:90-100 | for `w ≥ 0` the slice's width is at most `w` |
| FindUtils.WidePrefixMaximal | packages/cli/src/commands/find/utils.ts:95 | the slice is maximal: either the whole string, or the next code point would exceed `w` |
| FindUtils.WidePrefixWhole | packages/cli/src/commands/find/utils.ts:90-100 | a string that fits is returned whole |
| FindUtils.PrefixEnd | packages/cli/src/commands/find/utils.ts:91-98 | the loop's end index stays within the string |
| FindUtils.PrefixEndSlice | packages/cli/src/commands/find/utils.ts:91-99 | the slice up to the loop's end index is the width prefix |
| FindUtils.SliceWidth | packages/cli/src/commands/find/utils.ts:90-100 | the loop returns exactly the width prefix `WidePrefix(s, w)` |
| FindUtils.Tenths | packages/cli/src/commands/find/utils.ts:126 | `toFixed(1)` of count/1000 as tenths: within half a tenth of the count, and `round(count/100)` away from the ties |
| FindUtils.FormatStars | packages/cli/src/commands/find/utils.ts:124-129 | counts below 1000 as the plain decimal; from 1000 on the text ends in `k` |
| FindUtils.FormatStarsThousands | packages/cli/src/commands/find/utils.ts:124-127 | counts in [1000, 10000) show one decimal: `d.dk`, within half a tenth of the count |
| FindUtils.FormatStarsLarge | packages/cli/src/commands/find/utils.ts:124-127 | counts from 10000 show a whole number of thousands, rounded half up, without a point |
| FindUtils.FormatStarsPoint | packages/cli/src/commands/find/utils.ts:124-129 | a decimal point appears exactly for counts in [1000, 10000) |
| FindUtils.FormatStarsHundreds | packages/cli/src/commands/find/utils.ts:128 | 999 → `999` |
| FindUtils.FormatStarsOneAndAHalf | packages/cli/src/commands/find/utils.ts:126 | 1500 → `1.5k` |
| FindUtils.FormatStarsBelowHalf | packages/cli/src/commands/find/utils.ts:126 | 1150 → `1.1k`, because 1.15 is stored just below its decimal value |
| FindUtils.FormatStarsExactHalf | packages/cli/src/commands/find/utils.ts:126 | 1250 → `1.3k` |
| FindUtils.FormatStarsJustBelowTenThousand | packages/cli/src/commands/find/utils.ts:126 | 9999 → `10.0k` |
| FindUtils.FormatStarsTwelveThousand | packages/cli/src/commands/find/utils.ts:126 | 12000 → `12k` |
| FindUtils.FormatAge | packages/cli/src/commands/find/utils.ts:131-139 | the text always ends in ` ago` |
| FindUtils.FormatAgeLongestUnit | packages/cli/src/commands/find/utils.ts:131-139 | below an hour the unit is minutes; otherwise it is the largest of 3600, 86400, 604800, 2592000 and 31536000 seconds that the elapsed seconds reach; the number is the elapsed seconds divided by the unit, rounded down |
| FindUtils.AgeOverflowsColumn | packages/cli/src/commands/find/utils.ts:137 | ten months gives `10mo ago`, 8 characters, wider than the 7-wide age column |
| FindUtils.AgeStyle | packages/cli/src/commands/find/utils.ts:141-151 | green below `ONE_WEEK`, yellow below `EIGHT_WEEKS`, red from there on |
| FindUtils.AgeColor | packages/cli/src/commands/find/utils.ts:141-151 | the text styled green under one week, yellow under eight weeks, red from then on |
| FindUtils.AgeStyleMonotone | packages/cli/src/commands/find/utils.ts:141-151 | more elapsed time is never greener |
| FindUtils.GreenIsUnderAWeek | packages/cli/src/commands/find/utils.ts:135-145 | green exactly when `formatAge` shows less than a week |
| FindUtils.RepoKey | packages/cli/src/commands/find/index.ts:49-51 | the key is always a suffix of the URL |
| FindUtils.RepoKeyOfRepositoryUrl | packages/cli/src/commands/find/utils.ts:48 | the key of `…/owner/name` is `owner/name` |
| FindUtils.Dedup | packages/cli/src/commands/find/utils.ts:47-49 | `[...new Set(keys)]` holds the same keys, each once |
| FindUtils.DedupPush | packages/cli/src/commands/find/utils.ts:47-49 | adding a key appends it only when it was not seen yet |
| FindUtils.FirstIndex | packages/cli/src/commands/find/utils.ts:47-49 | the first position of a key |
| FindUtils.DedupFirstSeen | packages/cli/src/commands/find/utils.ts:47-49 | unique keys come in first-seen order |
| FindUtils.SuccessMap | packages/cli/src/commands/find/utils.ts:56-71 | the map holds exactly the requested keys whose fetch succeeded, each with the fetched repository |
| FindUtils.SuccessMapPush | packages/cli/src/commands/find/utils.ts:56-71 | one more key adds its entry exactly when its fetch succeeded |
| FindUtils.UniqueRepoKeys | packages/cli/src/commands/find/utils.ts:47-49 | the loop builds the de-duplicated keys in first-seen order |
| FindUtils.Distinct | packages/cli/src/commands/find/utils.ts:47-49 | the loop keeps each key at its first occurrence: the same keys, each once, in first-seen order |
| FindUtils.FetchRepoDetails | packages/cli/src/commands/find/utils.ts:46-72 | one `getRepository` per unique key, in first-seen order; the map holds exactly the successful keys |
| FindUtils.FetchEach | packages/cli/src/commands/find/utils.ts:56-71 | one call per key, in key order; the map holds exactly the keys whose call succeeded |
| FindUtils.FetchStep | packages/cli/src/commands/find/utils.ts:60-64 | a successful call adds its entry, a failed one is filtered out |
| FindUtils.BuildIssueItem | packages/cli/src/commands/find/utils.ts:74-88 | the issue is unchanged and every repository field is filled |
| FindUtils.BuildIssueItemFields | packages/cli/src/commands/find/utils.ts:78-87 | a present field is copied; a missing repository gives `-`, `0`, `-`, `-` |
| FindUtils.DetermineLabels | packages/cli/src/commands/find/utils.ts:40-44 | the default labels followed by the flag labels, in order |
| FindUtils.FirstMatch | packages/cli/src/commands/find/utils.ts:17-37 | no language exactly when no marker rule matches |
| FindUtils.DetermineLanguage | packages/cli/src/commands/find/utils.ts:13-38 | a truthy `--language` is returned as given, and any language returned is non-empty |
| FindUtils.DetermineLanguageByRules | packages/cli/src/commands/find/utils.ts:13-38 | the language flag wins when truthy; otherwise the first matching rule decides |
| FindUtils.LanguageRulesFromStart | packages/cli/src/commands/find/utils.ts:17-24 | `tsconfig.json` with `package.json` is TypeScript, before `package.json` alone is JavaScript; then Rust, then Go |
| FindUtils.LanguageRulesFromCSharp | packages/cli/src/commands/find/utils.ts:25-30 | a `.csproj` file is C#, then Python markers, then `Gemfile` |
| FindUtils.LanguageRulesFromJava | packages/cli/src/commands/find/utils.ts:31-37 | Java, Elixir, Swift markers, in that order; no match gives no language |
| CommandUtils.CodeWidth | packages/cli/src/commands/utils.ts:21-24 | zero for a zero-width code point (checked first), else 2 when wide, else 1 |
| CommandUtils.Width | packages/cli/src/commands/utils.ts:19-26 | never more than the width that ignores zero-width code points |
| CommandUtils.DisplayWidth | packages/cli/src/commands/utils.ts:19-26 | the loop returns `Width(s)`, the sum of the code point widths |
| CommandUtils.WidthAppend | packages/cli/src/commands/utils.ts:19-26 | width is additive over concatenation |
| CommandUtils.WidthWithoutZeroWidth | packages/cli/src/commands/utils.ts:19-26 | without zero-width code points it is the `sliceWidth` width |
| CommandUtils.SpacesWidth | packages/cli/src/commands/utils.ts:5 | n spaces are n wide |
| CommandUtils.PadEnd | packages/cli/src/commands/utils.ts:3-6 | `s` followed by spaces only, and `s` itself when it is already wide enough |
| CommandUtils.PadStart | packages/cli/src/commands/utils.ts:8-11 | spaces only followed by `s`, and `s` itself when it is already wide enough |
| CommandUtils.PadWidth | packages/cli/src/commands/utils.ts:3-11 | padded width is `max(target, width(s))` at either end |
| CommandUtils.Truncate | packages/cli/src/commands/utils.ts:13-17 | identity when the display width fits; otherwise `sliceWidth(s, w-3) + "..."` |
| CommandUtils.TruncateFits | packages/cli/src/commands/utils.ts:13-17 | for `w ≥ 3` the result is at most `w` wide |
| CommandUtils.TruncateIdempotent | packages/cli/src/commands/utils.ts:13-17 | for `w ≥ 3` truncating twice equals truncating once |
| CommandUtils.PadTruncatedExact | packages/cli/src/commands/utils.ts:3-17 | `padEnd(truncate(s, w), w)` is exactly `w` wide |
| CommandUtils.PadPrefixExact | packages/cli/src/commands/find/formatter.ts:33 | `padEnd(sliceWidth(s, w), w)` is exactly `w` wide |
| CommandUtils.AsciiWidth | packages/cli/src/commands/utils.ts:19-26 | ASCII text without zero-width code points is as wide as it is long |
| FindFormatter.TopBorder | packages/cli/src/commands/find/formatter.ts:59-67 | 131 long, `┌` to `┐`, only `─` and `┬` in between |
| FindFormatter.Separator | packages/cli/src/commands/find/formatter.ts:69-77 | 131 long, `├` to `┤`, only `─` and `┼` in between |
| FindFormatter.BottomBorder | packages/cli/src/commands/find/formatter.ts:79-87 | 131 long, `└` to `┘`, only `─` and `┴` in between |
| FindFormatter.Runs | packages/cli/src/commands/find/formatter.ts:59-87 | one run of `─` per column, each 2 longer than its column |
| FindFormatter.BorderShape | packages/cli/src/commands/find/formatter.ts:59-99 | a border is 131 characters, from its left corner to its right corner, with only `─` and its junction in between |
| FindFormatter.JoinDrawn | packages/cli/src/commands/find/formatter.ts:62-64 | runs of `─` joined by a junction contain only `─` and that junction |
| FindFormatter.JoinWidth | packages/cli/src/commands/find/formatter.ts:56 | the width of joined cells is the sum of the cell widths and separators |
| FindFormatter.JoinedWidthSeven | packages/cli/src/commands/find/formatter.ts:56 | seven cells give the seven widths plus six separators |
| FindFormatter.JoinedWidthStep | packages/cli/src/commands/find/formatter.ts:56 | one step of that sum |
| FindFormatter.RowWidth | packages/cli/src/commands/find/formatter.ts:55-57 | a row is `│ ` + cells joined by ` │ ` + ` │`, so its width is the joined width plus 4 |
| FindFormatter.FrameWidths | packages/cli/src/commands/find/formatter.ts:55-57 | the row separators are 3, 2 and 2 wide |
| FindFormatter.HeaderCells | packages/cli/src/commands/find/formatter.ts:43-53 | seven header cells |
| FindFormatter.HeaderRow | packages/cli/src/commands/find/formatter.ts:43-53 | the bold header cells in a row; its unstyled width is `HeaderWidth` |
| FindFormatter.Row | packages/cli/src/commands/find/formatter.ts:55-57 | the cells joined by ` │ ` between `│ ` and ` │`; its width is `RowWidth` |
| FindFormatter.AsciiCodes | packages/cli/src/commands/find/formatter.ts:43-53 | ASCII labels have code points below 0x80 |
| FindFormatter.HeaderLabelsFit | packages/cli/src/commands/find/formatter.ts:43-53 | every header label is ASCII and fits its column |
| FindFormatter.LabelFills | packages/cli/src/commands/find/formatter.ts:43-53 | a fitting ASCII label padded at either end fills its column exactly |
| FindFormatter.HeaderCellWidth | packages/cli/src/commands/find/formatter.ts:43-53 | each header cell is exactly its column's width |
| FindFormatter.HeaderWidth | packages/cli/src/commands/find/formatter.ts:43-53 | before styling, the header row is exactly as wide as the border |
| FindFormatter.IssueCells | packages/cli/src/commands/find/formatter.ts:27-41 | seven cells per issue row |
| FindFormatter.FormatIssueRow | packages/cli/src/commands/find/formatter.ts:27-41 | the issue cells in a row: repository cyan, language and position dim, age coloured by `AgeColor` |
| FindFormatter.IssueCellWidths | packages/cli/src/commands/find/formatter.ts:30-37 | before styling, the repo, language and title cells are exactly 30, 12 and 40 wide, whatever the text |
| FindFormatter.PositionOverflows | packages/cli/src/commands/find/formatter.ts:36 | position 100000 renders `#100000`, wider than the 6-wide `#` column |
| FindFormatter.Frame | packages/cli/src/commands/find/formatter.ts:24 | n rows give n+6 lines: top, header, separator, the rows in order, bottom, blank, disclosure |
| FindFormatter.Rows | packages/cli/src/commands/find/formatter.ts:17 | one row per issue |
| FindFormatter.RowsAt | packages/cli/src/commands/find/formatter.ts:17 | row i is formatted with position i + 1 |
| FindFormatter.TableLines | packages/cli/src/commands/find/formatter.ts:16-25 | n issues give n + 6 lines |
| FindFormatter.FormatTable | packages/cli/src/commands/find/formatter.ts:16-25 | the table lines joined by newlines; `TableLinesRoundTrip` splits them back |
| FindFormatter.TableLinesRow | packages/cli/src/commands/find/formatter.ts:17-24 | line 3 + i is issue i's row, showing `#(i+1)`, so rows keep the issue order |
| FindFormatter.TableLinesRoundTrip | packages/cli/src/commands/find/formatter.ts:24 | when no line contains a newline, splitting the output on newlines gives back the n + 6 lines |
| Formatter.ColumnsAsInFind | packages/cli/src/formatter.ts:3-11 | the older column widths equal `COL_WIDTH` |
| Formatter.IsWide | packages/cli/src/formatter.ts:93-113 | every wide code point lies in U+1100–U+3FFFD |
| Formatter.IsWideAgrees | packages/cli/src/formatter.ts:93-113 | the private `isWide` is identical to the one in find/utils.ts |
| Formatter.DisplayWidth | packages/cli/src/formatter.ts:115-121 | the loop sums 2 per wide code point and 1 otherwise |
| Formatter.HangulWidth | packages/cli/src/formatter.ts:115-121 | n Hangul syllables are 2n wide |
| Formatter.SpacesWidth | packages/cli/src/formatter.ts:125 | n spaces are n wide |
| Formatter.PadEnd | packages/cli/src/formatter.ts:123-126 | `s` followed by spaces, of width `max(target, width(s))` |
| Formatter.PadStart | packages/cli/src/formatter.ts:128-131 | spaces followed by `s`, of width `max(target, width(s))` |
| Formatter.Truncate | packages/cli/src/formatter.ts:162-166 | identity when `s` fits; otherwise a prefix of `s` followed by `...`; at most `w` wide for `w ≥ 3` |
| Formatter.CutFits | packages/cli/src/formatter.ts:164-165 | the cut-and-ellipsis branch is at most `w` wide |
| Formatter.TruncateIdempotent | packages/cli/src/formatter.ts:162-166 | for `w ≥ 3`, truncating twice equals truncating once |
| Formatter.BordersAgree | packages/cli/src/formatter.ts:59-91 | the three borders equal the newer formatter's, all 131 long |
| Formatter.HeaderCells | packages/cli/src/formatter.ts:43-53 | seven header cells |
| Formatter.HeaderRow | packages/cli/src/formatter.ts:43-53 | the unstyled header cells in a row; its width is `HeaderWidth` |
| Formatter.RowWideWidth | packages/cli/src/formatter.ts:55-57 | a row is as wide as its seven cells plus 22 for the frame |
| Formatter.HeaderCellWidth | packages/cli/src/formatter.ts:43-53 | each header cell is exactly its column's width |
| Formatter.HeaderWidth | packages/cli/src/formatter.ts:43-53 | the header row is as wide as the border |
| Formatter.IssueCells | packages/cli/src/formatter.ts:30-41 | seven cells per issue row |
| Formatter.FormatIssueRow | packages/cli/src/formatter.ts:30-41 | the issue cells, with the issue's own number and its looked-up repository, in a row |
| Formatter.Lookup | packages/cli/src/formatter.ts:16 | `repoMap.get(key)`: the repository when the key is present, undefined otherwise |
| Formatter.IssueRows | packages/cli/src/formatter.ts:14-17 | one row per issue |
| Formatter.IssueRowsAt | packages/cli/src/formatter.ts:14-17 | row i is issue i with the repository looked up by its URL's last two segments |
| Formatter.Framed | packages/cli/src/formatter.ts:19-27 | top, header, separator, rows, bottom, blank, footer in that order |
| Formatter.TableLines | packages/cli/src/formatter.ts:13-28 | borders, header, one row per issue, blank line and footer; its shape is `TableShape` |
| Formatter.FormatTable | packages/cli/src/formatter.ts:13-28 | the table lines joined by newlines |
| Formatter.TableShape | packages/cli/src/formatter.ts:13-28 | n + 6 lines; rows in issue order, each with its looked-up repository; the footer states n |
| Formatter.IssueCellWidths | packages/cli/src/formatter.ts:33-37 | the repo, language and title cells are exactly 30, 12 and 40 wide |
| Formatter.MissingRepoSentinels | packages/cli/src/formatter.ts:34-35 | a missing repository shows `-` in the language column and `0` in the stars column |
| Formatter.NumberCellFits | packages/cli/src/formatter.ts:36 | the `#` cell ends in `#<issue.number>` and fills its 6-wide column exactly when the number is below 100000 |
| Formatter.NatDecimalShort | packages/cli/src/formatter.ts:36 | a number has at most k digits iff it is below 10^k |
| Find.SearchParamsOf | packages/cli/src/commands/find/index.ts:14-20 | labels are the defaults then the flag labels; language, org and repo are copied only when truthy; `perPage` only when a limit is given; nothing else is set |
| Find.FillSearchParams | packages/cli/src/commands/find/index.ts:14-20 | the field-by-field updates produce `SearchParamsOf(flags)` |
| Find.FindClauses | packages/cli/src/commands/find/index.ts:14-20 | the search's clauses are language, org and repo when given, then one label clause per default and flag label |
| Find.FlagClauses | packages/cli/src/commands/find/index.ts:14-20 | parameters filled only from the language, org, repo and labels flags give exactly those clauses |
| Find.FindQuery | packages/cli/src/commands/find/index.ts:15-23 | the search's query is the untrimmed join of its clauses, sent as the first pair `q` |
| Find.QueryNonEmpty | packages/core/src/github/query-builder.ts:13-19 | with at least one label the query is never empty |
| Find.Enrich | packages/cli/src/commands/find/index.ts:26-28 | exactly one enriched issue per item, in the same order, with the issue fields unchanged |
| Find.FailedFetchSentinels | packages/cli/src/commands/find/index.ts:53-64 | an issue whose repository fetch failed is kept, with `0`, `-`, `-`, `-` |
| Find.FetchedRepoCopied | packages/cli/src/commands/find/index.ts:53-64 | a fetched repository's fields are copied, with the defaults for missing ones |
| Find.SharedRepoFetchedOnce | packages/cli/src/commands/find/index.ts:35-36 | issues sharing a repository share one requested key |
| Find.RunFind | packages/cli/src/commands/find/index.ts:13-33 | a failed search reports its error's `kind` and fetches nothing; a successful one lists the enriched items and fetches exactly the unique keys |
| Find.EnrichedRowCells | packages/cli/src/commands/find/index.ts:53-64 | a failed fetch shows `-` and `0` in the row; a fetched language and star count show themselves |
| Find.SentinelCells | packages/cli/src/commands/find/index.ts:53-64 | a row carrying the sentinel repository shows `-` as language and `0` stars |
| Find.FindTable | packages/cli/src/commands/find/formatter.ts:16-25 | the enriched search prints n + 6 lines, row i for item i at position i + 1, and the dimmed disclosure for n |
| OpenUtils.SearchResultsFilepath | packages/cli/src/commands/open/utils.ts:5-9 | the temporary directory followed by `/good-first-issues-results.json` |
| OpenUtils.Plural | packages/cli/src/commands/open/utils.ts:22 | `result` exactly for one, `results` otherwise |
| OpenUtils.GetIssue | packages/cli/src/commands/open/utils.ts:11-27 | non-array contents are corrupted, checked before the number; ≤ 0 is invalid; past the end is out of range; it succeeds iff the contents are an array and 1 ≤ n ≤ length, and then gives `content[n-1]` |
| OpenUtils.InvalidNumber | packages/cli/src/commands/open/utils.ts:16-19 | the message for a number ≤ 0, naming the number |
| OpenUtils.OutOfRange | packages/cli/src/commands/open/utils.ts:20-23 | the message for a number past the end, naming the number, the count and the valid range; its ends are `OutOfRangeMessage` |
| OpenUtils.OutOfRangeMessage | packages/cli/src/commands/open/utils.ts:20-24 | the out-of-range message starts with `Issue #<n>` and ends with `<length>)` |
| OpenUtils.NothingSaved | packages/cli/src/commands/open/utils.ts:20-24 | with nothing saved, every positive number is out of range, ending in `(1-0)` |
| OpenUtils.SavedUrls | packages/cli/src/commands/open/utils.ts:30 | one URL per issue, each issue's `html_url`, in issue order |
| OpenUtils.OpenShownRow | packages/cli/src/commands/open/utils.ts:11-30 | number n opens exactly the issue shown on the n-th row of the table, and only the shown numbers open |
| JsText.TrimStart | packages/core/src/github/query-builder.ts:19 | drops a prefix, and the result does not start with whitespace |
| JsText.TrimEnd | packages/core/src/github/query-builder.ts:19 | drops a suffix, and the result does not end with whitespace |
| JsText.Trim | packages/core/src/github/query-builder.ts:19 | `trim()` never lengthens and leaves no whitespace at either end |
| JsText.TrimIsFactor | packages/core/src/github/query-builder.ts:19 | `trim()` removes only whitespace, from the two ends |
| JsText.TrimNoop | packages/core/src/github/query-builder.ts:19 | a string without whitespace at its ends is unchanged |
| JsText.JoinLength | packages/core/src/github/query-builder.ts:19 | `join` length is the part lengths plus one separator per gap |
| JsText.JoinAppend | packages/core/src/github/query-builder.ts:19 | joining a concatenation joins the two halves with one separator |
| JsText.JoinEnds | packages/core/src/github/query-builder.ts:19 | a join starts with its first part and ends with its last |
| JsText.JoinTrimNoop | packages/core/src/github/query-builder.ts:19 | joined parts without outer whitespace are not trimmed |
| JsText.Split | packages/cli/src/commands/find/utils.ts:48 | `split` gives at least one piece, none containing the separator |
| JsText.JoinSplit | packages/cli/src/commands/find/utils.ts:48 | joining the pieces of a split gives the string back |
| JsText.SplitJoin | packages/cli/src/commands/find/utils.ts:48 | splitting joined separator-free pieces gives them back |
| JsText.SplitAppend | packages/cli/src/commands/find/utils.ts:48 | splitting at one separator gives the pieces before it followed by the pieces after it |
| JsText.LastTwo | packages/cli/src/commands/find/utils.ts:48 | `slice(-2)` is the last two elements, or all of fewer |
| JsText.NatDecimalValue | packages/core/src/github/client.ts:41 | the decimal rendering of a number reads back as that number |
| JsText.NumberOfNatDecimal | packages/core/src/github/client.ts:49 | `Number()` of a rendered natural number is that number |
| JsText.NumberOfNegativeDecimal | packages/core/src/github/client.ts:49 | `Number()` of a rendered negative number is that number |
| JsText.NumberOfSigned | packages/core/src/github/client.ts:49 | `Number()` of a minus sign followed by digits is the negated value of the digits |

## Left out

- Network, file and terminal I/O: the HTTP call, `response.json()`, reading the directory listing, writing the results file, `console.log` in `stdout`, and the JSON output of `--json`. Each enters the model as a parameter or a parsed value.
- `Promise.all` concurrency in `fetchRepoDetails`: the repository fetches are made one after the other, in key order, against a function from key to result. Splitting the key into owner and name is folded into that function.
- `GitHubClient.Message`: the parsed body's `message` is modelled as a string. A non-nullish `message` of another JSON type (a number, say) is kept by the source as the error message, but the model reads such a body as having no message and gives `HTTP <status>`.
- `GitHubClient.GithubClient.Fetch`: the thrown value is modelled as its message only; `String(e)` of a non-`Error` value is not modelled.
- `getIssues` and `getRepository` are called by `find` but are not part of `client.ts`; they are the `search` and `getRepository` parameters.
- `fromPromise` in result.ts, because it is asynchronous.
- The logger: its verbose and error output, and the timing measurement in `fetchRepoDetails`.
- `styleText` is a parameter: the ANSI codes it adds are not modelled, and widths are stated before styling.
- `isZeroWidth` is imported by commands/utils.ts from find/utils.ts, which does not define it. It is the `zeroWidth` parameter; width lemmas that need it assume that the space and `│` are not zero-width, and those about ASCII text (`CommandUtils.AsciiWidth`, `CommandUtils.WidthWithoutZeroWidth`, `FindFormatter.PositionOverflows`) that the code points they measure, or all ASCII code points, are not zero-width.
- `Date` parsing of timestamps: `elapsed` gives the milliseconds since each `created_at`. Invalid dates (NaN) are not modelled.
- `JsText.NumberOf`: `Number()` is modelled for trimmed decimal integers with an optional sign. Fractions, exponents, hexadecimal, `Infinity` and other numeric forms give `None`, where JavaScript gives a number. JavaScript numbers are doubles, and the model's are unbounded integers: a `--limit` beyond 2^53 is rounded by `Number()` in JavaScript and not in the model, and from 10^21 on `toString()` writes an exponent (`1e+21`) where `JsText.Decimal` writes every digit. So `Find.SearchParamsOf` and `QueryBuilder.QueryPairs` send such a `per_page` exactly as typed, where JavaScript sends the rounded double.
- `OpenUtils.GetIssue`: the issue number is an integer. A fractional number such as 1.5 passes the source's range checks and reads `content[0.5]`, which is `undefined`; the model cannot express it.
- `GitHubClient.ResetDate`: a fractional or exponent reset header gives an invalid date in the model, where JavaScript gives a valid one.
- `Find.SearchParamsOf`: a non-integer `--limit` gives no `perPage`; a non-numeric one also gives none, where JavaScript sets `NaN`. The two behave alike downstream, since `buildQuery` skips a falsy `perPage`.
- `FindUtils.FormatStars`: modelled for integer counts. Counts in [1000, 10000) are rounded as `toFixed(1)` rounds their binary double value, which differs from decimal rounding only at the ties (count ≡ 50 mod 100). Fractional or negative counts are not modelled.
- Lone UTF-16 surrogates cannot occur in a `string` of code points.
- `--sort` and `--assigned` are parsed but never read by `find`, so they play no part here.
- find/index.ts imports `DEFAULT_LABELS` from packages/cli/src/constants.ts, which is not part of this model, and `stdout` from formatter.ts, which does not export it. The model uses the labels of find/constants.ts and the `stdout` of find/formatter.ts.
- `fetchRepoDetails`, `getRepoName` and `buildIssueItem` are repeated in find/index.ts and find/utils.ts with the same bodies, so each is modelled once, in `FindUtils`. The older formatter's `sliceWidth`, `formatStars` and `formatAge` are likewise copies of the find/utils.ts functions (packages/cli/src/formatter.ts:133-160), and use those members.
- packages/core/src/scoring/index.ts (floating-point scores), the help text, the argument parser and process dispatch are not part of this model.
