# httpfixture fixture-matching and request-assertion engine, in Dafny

A model of the core of the Go package `httpfixture`. The package stands up a fake HTTP server whose
responses are fixed in advance ("fixtures"). The model covers five parts:

- **Route normalisation** (`standardizePath`). Every fixture's route is rooted at `/`.
- **Fixture construction** (`base` and the convenience constructors `OK`, `GetOK`, `BytesOK`, `Bytes`,
  `ResponseCode`, `NotFound`, `Seq`). Options append request assertions in order.
- **Running a fixture** (`F.Run`). An in-memory fixture answers its status and body. A status-only
  fixture answers its status with no body. A sequence fixture (`Seq`) hands each request to one
  sub-fixture, chosen by a cursor. Each sub-fixture is used once in order, then the last one answers
  forever.
- **Request assertions and their aggregation** (`AssertURLContains`, `AssertHeaderMatches`,
  `AssertBodyContains(Bytes)`, `assertAll`). Every assertion runs. Each failure is logged. The test is
  marked failed when any assertion failed. The response is produced all the same.
- **Dispatch** (the route-selection loop of `Server.ServeHTTP`). The first registered fixture whose
  route is a string prefix of the request path, and whose method is `*` or the request's method,
  answers the request. When no fixture matches, the reply is a 404.

Modules, one per component:

| module | file | contents |
|---|---|---|
| `Wrappers` | wrappers.dfy | `Option`, and the `Outcome` of one assertion |
| `Text` | text.dfy | bytes, substring search (`Contains`), ASCII case folding (`EqualFold`) |
| `Paths` | paths.dfy | `Standardize` (standardizePath) |
| `Requests` | requests.dfy | the request, its header multimap and canonical header keys |
| `Assertions` | assertions.dfy | the assertion kinds, `Check`, the test sink, `AssertAll` |
| `Fixtures` | fixtures.dfy | descriptors, the three fixture variants, `Run`, constructors, the sequence cursor |
| `Server` | server.dfy | `Dispatch` and `Serve` (ServeHTTP up to writing the reply) |
| `BodyReplay` | body_replay.dfy | the body assertion's handling of the request body (see Findings) |
| `Scenarios` | scenarios.dfy | concrete cases from the package's tests and documentation |

Abstractions:

- The test handle `testing.T` is modelled as a sink: the list of logged lines plus a `failed` flag.
- Mutable fixture state, which is only the sequence cursor, is threaded through: `Run` returns the
  fixture's new state with its response.
- Go strings (routes, methods, URLs, header keys and values) are Dafny strings. Bodies are byte
  sequences. Constructors that take a body string take the string's bytes.

Behaviour of the package that the model keeps:

- An unmatched request gets `http.NotFound`'s reply: status 404 with body `404 page not found\n`
  (httpfixture.go:323-325).
- `OK` registers the wildcard method `*`, so it answers every method (httpfixture.go:31-34).
- The sequence cursor is read and advanced without a lock (httpfixture.go:197-205).

The body assertion puts back a request body that starts with ContentLength zero bytes, and it panics
when the length is unknown (httpfixture.go:173). `BodyReplay` models this as written; see Findings. The
request-handling members (`Assertions.AssertAll`, `Fixtures.Run`, `Server.Serve`) use the corrected,
replay-safe check instead; see Left out.

## Model

| member | source | states |
|---|---|---|
| Paths.Standardize | httpfixture.go:348-356 | the result is non-empty and starts with '/'; a route already starting with '/' is returned unchanged; any other route (including "") is kept whole after one added '/' |
| Paths.StandardizeIdempotent | httpfixture.go:348-356 | normalising a normalised route changes nothing |
| Paths.StandardizeKeepsRoute | httpfixture.go:348-356 | the original route is a suffix of the result, which is at most one character longer |
| Fixtures.Base | httpfixture.go:123-133 | the descriptor's route is the standardised route, so it is rooted and ends with the given route; method and status are kept; the options' assertions are kept in the order given |
| Fixtures.Bytes | httpfixture.go:54-61 | builds an in-memory fixture whose response is the given status with exactly the given body |
| Fixtures.BytesOK | httpfixture.go:48-52 | the descriptor is base(route, method, 200, opts), so the options' assertions are kept; responds 200 with the given body |
| Fixtures.OK | httpfixture.go:31-34 | registers the wildcard method "*" and responds 200 with the body |
| Fixtures.GetOK | httpfixture.go:36-46 | registers method GET and responds 200 with the body |
| Fixtures.ResponseCode | httpfixture.go:116-121 | responds with the given status and no body |
| Fixtures.NotFound | httpfixture.go:111-114 | the descriptor is base(route, method, 404, opts), so the options' assertions are kept; responds 404 with no body |
| Fixtures.Seq | httpfixture.go:99-109 | a well-formed sequence fixture with cursor 0, no assertions of its own, whose next request is answered by the first sub-fixture; needs at least one sub-fixture |
| Fixtures.Selected | httpfixture.go:197-205 | the sub-fixture used next is min(cursor, n-1): the one under the cursor, or the last once the cursor is at the end |
| Fixtures.Render | httpfixture.go:214-233 | a static fixture's response carries its descriptor's status, and a body exactly when it is an in-memory fixture, and that body is the stored bytes |
| Fixtures.Run | httpfixture.go:197-233 | the response and the sink are those of the leaf fixture the cursors select, and only that leaf's assertions run; route and method never change; a static fixture is unchanged; a sequence cursor advances by one up to n and then stays; only the selected sub-fixture changes, and it becomes what running it alone leaves; well-formedness is kept |
| Fixtures.RunIsLogicless | httpfixture.go:1-3 | two runs of the same fixture state on different requests give the same response and the same next state |
| Fixtures.RunOnlyAddsFailures | httpfixture.go:237-249 | a run only appends to the log, never clears a failure, and fails the test exactly when it was failed or an assertion of the selected leaf failed |
| Fixtures.SeriesCursor | httpfixture.go:188-205 | after k calls a sequence fixture's cursor is min(next + k, n) |
| Fixtures.SeriesExhaustedStays | httpfixture.go:197-201 | once the cursor reaches n it never changes again, for any number of calls |
| Fixtures.SeriesStep | httpfixture.go:197-205 | the k-th response of a series is what the fixture answers in the state the first k calls left |
| Fixtures.KthCallSelects | httpfixture.go:99-100 | the k-th call (0-based) to a sequence fixture is answered by sub-fixture min(next + k, n-1) |
| Fixtures.StaticSeries | httpfixture.go:99-100 | with static sub-fixtures, the k-th response is exactly sub-fixture min(next + k, n-1)'s status and body |
| Text.Contains | httpfixture.go:140 | substring search holds exactly when the needle occurs at some position; the empty needle occurs everywhere |
| Text.EqualFold | httpfixture.go:154 | holds exactly when the strings have equal length and agree position by position once ASCII letters are lower-cased |
| Requests.CanonicalKey | httpfixture.go:152 | a key with a non-token character is used as is; a token key keeps its length, with the first letter and each letter after '-' upper-cased and every other letter lower-cased |
| Requests.CanonicalKeyFoldEqual | httpfixture.go:152 | the canonical key differs from the key given only in letter case |
| Requests.RecaseAt | httpfixture.go:152 | a canonical key upper-cases the first letter and each letter after '-', and lower-cases every other letter |
| Requests.CanonicalKeyIgnoresCase | httpfixture.go:152 | two token keys that differ only in letter case look up the same header |
| Requests.CanonicalKeyIdempotent | httpfixture.go:152 | canonicalising a canonical key changes nothing |
| Requests.Values | httpfixture.go:152 | the values are those stored under the key's canonical form, and none when that form is absent |
| Assertions.AnyValueMatches | httpfixture.go:152-158 | the loop over the header's values finds a match exactly when some value equals the expected one up to ASCII case |
| Assertions.Check | httpfixture.go:136-186 | the URL assertion passes iff the URL text contains the substring; the header assertion passes iff some value stored under the key equals the expected value up to case, so an absent header fails; the body assertion passes iff the body bytes contain the needle |
| Assertions.FailureLogEmpty | httpfixture.go:237-249 | nothing is logged exactly when every assertion passes |
| Assertions.FailureLogAppend | httpfixture.go:240-245 | the failure log of two lists run in turn is the first list's log followed by the second's: registration order, no short-circuit |
| Assertions.FailureLogSingle | httpfixture.go:241-244 | one failing assertion logs exactly one line, "request failed assertion: " and its message; a passing one logs nothing |
| Assertions.FailureLog | httpfixture.go:240-245 | at most one line per assertion, and every line starts with "request failed assertion: " |
| Assertions.AssertAll | httpfixture.go:237-249 | the sink's log gains one line per failing assertion in order, and the test is failed iff it already was or some assertion failed |
| Assertions.RunAssertions | httpfixture.go:237-249 | the Go loop, with its flag set on each failure and the test failed once afterwards, produces that same log and verdict |
| Server.Matches | httpfixture.go:318 | a fixture answers a request exactly when the path is at least as long as its route and begins with it (strings.HasPrefix), and its method is "*" or the request's method |
| Server.Dispatch | httpfixture.go:315-322 | returns the lowest index whose fixture's route is a prefix of the path and whose method is "*" or the request's; no earlier fixture matches; None exactly when no fixture matches |
| Server.MethodMatching | httpfixture.go:318 | a "*" fixture matches every method; any other fixture matches only its own method |
| Server.DispatchReadsOnlyDescriptors | httpfixture.go:316-322 | tables that agree on every fixture's route and method dispatch every request alike |
| Server.FirstRegistrationWins | httpfixture.go:316-321 | a matching fixture at index i means some fixture at index at most i is selected |
| Server.Serve | httpfixture.go:315-339 | no match gives 404 with http.NotFound's body and changes nothing; otherwise the selected leaf's status and body (empty when it has none) are written, its assertions report to the sink, the selected fixture becomes what running it leaves (a sequence cursor advances), and no other fixture changes; routes and methods stay |
| Server.ServeKeepsRouting | httpfixture.go:315-327 | serving a request never changes which fixture any later request selects |
| Server.UnmatchedIsNotAFailure | httpfixture.go:323-326 | an unmatched request is answered 404 and logs nothing |
| Server.FailuresDoNotAlterReply | httpfixture.go:327-339 | requests with the same method and path get the same reply and leave the same fixture state, whatever their assertions decide |
| BodyReplay.BodyCheckAsWritten | httpfixture.go:170-186 | as written: a negative content length panics; otherwise the verdict is taken on the body, and the body left behind is ContentLength zero bytes followed by the original |
| BodyReplay.AsWrittenAltersBody | httpfixture.go:173-175 | as written, any request with a positive content length is left with a different body |
| BodyReplay.AsWrittenSecondCheckDisagrees | httpfixture.go:173-180 | as written, on body "abc" a check for a zero byte fails, and a second such check on the body left behind passes |
| BodyReplay.AsWrittenUnknownLengthPanics | httpfixture.go:173 | as written, a request of unknown length (-1) makes the body check panic |
| BodyReplay.BodyCheckReplaySafe | httpfixture.go:170-186 | corrected: the verdict is whether the body contains the needle, and the request is left exactly as it was |
| BodyReplay.ReplaySafeChecksCommute | httpfixture.go:172-183 | corrected: a body check after another gets the verdict it would get on the original request |
| Scenarios.GetOKScenario | httpfixture_test.go:22-30 | GET /path against GetOK("/path", "hello world") is answered 200 with "hello world" |
| Scenarios.BytesStatusScenario | httpfixture_test.go:49-57 | DELETE /other/path against Bytes with status 201 is answered 201 with its bytes |
| Scenarios.ExampleApiScenario | httpfixture.go:315-326 | a GET fixture at "api/example" answers GET /api/example with 200 and its body; GET /other gets 404 |
| Scenarios.PrefixAndMethodScenario | httpfixture.go:316-321 | GetOK("/path") matches /path and /path/subpath, not /other, and not a POST; OK("/path") matches POST and DELETE |
| Scenarios.NotFoundFixtureScenario | httpfixture.go:111-121 | a NotFound fixture is answered 404 with an empty body |
| Scenarios.NineCallsOverFour | httpfixture.go:197-205 | a fresh sequence over any four static fixtures answers nine calls with the first three once each and then the fourth six times |
| Scenarios.SequenceScenario | httpfixture.go:99-100 | a Seq over body1..body4 answers nine GETs with body1, body2, body3, then body4 six times |
| Scenarios.BodyContainsPassScenario | httpfixture_test.go:121-127 | a body containing "quick brown fox" passes the body assertion |
| Scenarios.BodyContainsFailScenario | httpfixture_test.go:128-135 | a body without the needle fails the test and logs one line, yet the response is still 200 with the fixture's body |
| Scenarios.ControlBytesScenario | httpfixture_test.go:136-142 | the bytes "\n\n\r" are found inside a body holding them |
| Scenarios.EmptyBodyFailsScenario | httpfixture_test.go:143-150 | an empty body fails a check for "o" |
| Scenarios.HeaderPresentScenario | httpfixture_test.go:151-157 | a stored Content-Type value passes the header check even when the expected value differs in case |
| Scenarios.HeaderAbsentScenario | httpfixture_test.go:158-164 | without a Content-Type header the test is marked failed |
| Scenarios.SinglePassingAssertion | httpfixture.go:237-249 | a static fixture whose one assertion passes leaves a clean test passing |
| Scenarios.HeaderPresentRunScenario | httpfixture_test.go:151-157 | running a GET fixture with that header assertion on that request leaves the test passing |

## Left out

- Listener lifecycle (`NewServer`, `Start`, `StartTLS`, `Close`, `URL`, httpfixture.go:274-304): socket and TLS I/O with no logic. A server is modelled as its ordered sequence of fixtures.
- `File`, `FileOK`, `GetFileOK`, `Reader` (httpfixture.go:63-97): they read a file or stream into memory, or panic. After loading they are `Bytes`, which the model takes with the bytes already loaded.
- `GetBytesOK` and `AssertBodyContains(str)`: once string bodies are given as their bytes, they are the same as `GetOK` and the bytes form of the body assertion.
- The nil-URL guard of `ServeHTTP` (httpfixture.go:310-314): the model's request always carries a URL, as net/http's server always parses one.
- The response-header loop (httpfixture.go:331-335): it re-adds headers to the response itself and has no effect. Response headers are not modelled.
- Request-body read errors in the body assertion (httpfixture.go:176-179) and transport errors while copying the response body (httpfixture.go:340-344): I/O.
- Assertions.AssertAll: runs every assertion on the same, unchanged request, as the corrected body check leaves it. As written, a body assertion leaves ContentLength zero bytes in front of the body, so a later body assertion judges a different body, and a request of unknown length (-1) panics (httpfixture.go:173; `BodyReplay.BodyCheckAsWritten`).
- Fixtures.Run: its sink is `AssertAll`'s, so it too uses the replay-safe body check and never panics on a request of unknown length.
- Server.Serve: the reply is the fixture's status and body before net/http's ResponseWriter rules apply (httpfixture.go:336-344); net/http is not part of this model. `WriteHeader` panics for a status outside 100-999. A 1xx status other than 101 is sent as an informational reply, and the body then goes out under 200. With status 101, 204 or 304 and a non-empty body, the copy fails, and the handler logs "failed to copy response body" and fails the test; the model's sink shows no failure. `Serve` also uses the replay-safe body check, as `Fixtures.Run` does.
- Concurrency: requests are served one at a time. The source has no lock on the sequence cursor, and the model invents none.
- Shared fixture instances: in Go the same fixture pointer may be registered twice or nested in two `Seq`s, and then its cursor is shared. The model holds fixtures by value, so each copy has its own cursor.
- Text.EqualFold: ASCII-only folding. `strings.EqualFold` also folds non-ASCII letters (for example 'é'/'É', or 'K' and the Kelvin sign); the model treats two different non-ASCII characters as unequal.
- Requests.CanonicalKey: follows net/textproto's canonicalisation for ASCII keys. net/textproto is not part of this model. Its common-header interning returns an equal string and is not modelled.
- Fixtures.Seq: requires at least one sub-fixture. With none, the source fails with an index of -1 on the first request.
- The URL's text (`URL.String()`) is taken as given, not derived from its path.
- The request's content length is a separate field. Its agreement with the body length is not assumed.
- `t.Helper()` has no observable effect on the outcome and is not modelled.

## Findings

| source | as written | input that shows it | evidently intended | confidence | as-written member | corrected member |
|---|---|---|---|---|---|---|
| httpfixture.go:173 | The buffer that replaces the request body starts holding ContentLength zero bytes. Later readers see those zeros and then the original body, so a second body assertion on the same request judges a different body. | Body "abc" with ContentLength 3, and two `AssertBodyContainsBytes([]byte{0})` options. The first check fails; the second check, on the replayed body, passes. | An empty buffer with capacity ContentLength, so later readers see the original body. | high; not executed | BodyReplay.AsWrittenSecondCheckDisagrees | BodyReplay.BodyCheckReplaySafe |
| httpfixture.go:173 | The buffer is made with length ContentLength, which is -1 when the length is unknown, so making it panics. | A chunked request (ContentLength -1) to a fixture with any body assertion. | Unknown length is treated as no size hint, and the check runs. | high; not executed | BodyReplay.AsWrittenUnknownLengthPanics | BodyReplay.BodyCheckReplaySafe |

The rest of the model uses the corrected, replay-safe check. `Assertions.Check` judges the body as it is, and leaves the request unchanged.
