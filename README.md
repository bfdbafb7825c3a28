# walgo rate limiting, payloads, body verification and large forms in Dafny

walgo is a small Go toolkit for HTTP services. This project models four parts of it:

- **Rate limiting** (`ratelimit.go`).
  - `RateLimitHandler` sits in front of an `http.Handler` or an `http.HandlerFunc`. It identifies the client of each request by a policy: the IP address, the bearer token, a header value or a cookie value. It keeps a sliding window of call times per client and answers 429 "Too many requests." when the client is over its quota.
  - `RateLimitRequester` wraps an outbound requester. It keeps one window for all calls and refuses calls over the limit with `RateLimitExceededErr`. The wrapped requester is not reached for a refused call.
- **Payloads** (`payload.go`).
  - The generic payload is a content type plus bytes; raw data and URL-encoded values are both turned into one.
  - `MultipartPayload` holds values and files in one namespace of form names.
- **Body verification** (`verify.go`). `VerifyBody` checks that a JSON body has a key for every field of a target struct. A field's key is its json tag's name or its Go name; fields tagged `walgo:"skip"` are exempt.
- **Large multipart forms** (`multipart.go`). `ReadLargeForm` sorts the parts into values and files; `Form.Value` and `Form.File` look up the first entry under a name.

Modules:

| module | file | contents |
|---|---|---|
| `Common` | `common.dfy` | `Option`, `Result`, `Byte` |
| `Window` | `window.dfy` | the sliding-window rule shared by both limiters, as written and as intended, and the lemmas relating the two |
| `Policy` | `policy.dfy` | the four client policies |
| `Handler` | `handler.dfy` | `RateLimitHandler` as a class over `map<string, seq<int>>`, and the per-client run functions |
| `Requester` | `requester.dfy` | `RateLimitRequester` as a class over `seq<int>`, with its thirteen delegating methods |
| `Payload` | `payload.dfy` | payload constructors and the `MultipartPayload` class |
| `Verify` | `verify.dfy` | `verifyData` and `VerifyBody` |
| `Multipart` | `multipart.dfy` | `ReadLargeForm`, `Form.Value`, `Form.File` |

Conventions:

- Time is an `int` count of nanoseconds. Each call of `allowed` receives the clock reading `now` as a parameter.
- The classes model the code as written, including the two discrepancies listed under "## Findings".
- The intended rules (`Window.IntendedAdmit`, `Handler.IntendedInboundDecision`) stand beside them. Lemmas prove where the two agree: everywhere for a capacity of two or more with a clock that does not go back.

## Model

| member | source | states |
|---|---|---|
| `Window.ScanStop` | ratelimit.go:139-143 | definition of the index where the `range` loop stops: 0 for an empty history, otherwise an index inside it |
| `Window.Pruned` | ratelimit.go:139-145 | definition of the kept window `counts[i:]`, empty for an empty history (as at ratelimit.go:233-236) |
| `Window.Decide` | ratelimit.go:147-152 | definition of the decision on a kept window: refuse when it holds at least the capacity, otherwise admit and append `now` (as at ratelimit.go:238-243) |
| `Window.Admit` | ratelimit.go:139-154 | definition of one call of `allowed` on an existing window: prune at `now - duration`, then decide |
| `Window.FirstInWindow` | ratelimit.go:139-145 | definition of the intended start of the kept window: the first entry inside the window, or the length when there is none |
| `Window.IntendedPruned` | ratelimit.go:139-145 | definition of the intended kept window: the history without its stale prefix, empty when every entry is stale |
| `Window.IntendedAdmit` | ratelimit.go:139-154 | definition of the intended call: intended pruning, then the same decision |
| `Window.RunIntended` | ratelimit.go:221-249 | definition of the answers the intended rule gives to successive calls on one window; the only ensures is that there is one answer per call |
| `Window.ScanStopSpec` | ratelimit.go:139-143 | every entry the `range` loop passes over is older than the cutoff; it stops at the first entry inside the window or, when all are stale, on the last entry |
| `Window.ScanStopUnique` | ratelimit.go:139-143 | those facts determine the stop index exactly |
| `Window.Scan` | ratelimit.go:224-231 | the loop as imperative code yields that index: 0 for an empty history, an index inside the history otherwise, stopping at the first entry not older than the cutoff or on the last one |
| `Window.PrunedShape` | ratelimit.go:145 | the kept window is a suffix of the history and is non-empty when the history is |
| `Window.PrunedFromFirstInWindow` | ratelimit.go:139-145 | when some entry is inside the window, the kept window starts at the first such entry |
| `Window.PrunedAllStale` | ratelimit.go:139-145 | when every entry is stale, the last one is still kept |
| `Window.AdmitRule` | ratelimit.go:145-154 | a call is admitted iff the kept window holds fewer than the capacity; a refusal stores the kept window; an admission stores it with `now` appended |
| `Window.AdmitShape` | ratelimit.go:145-154 | the stored window is a suffix of the history, followed by `now` exactly when the call was admitted |
| `Window.AdmitKeepsSorted` | ratelimit.go:145-154 | with a clock that does not go back, windows stay in time order and bounded by `now` |
| `Window.SuffixSorted` | ratelimit.go:145 | a suffix of an ordered history is ordered, and so is it with `now` appended |
| `Window.Run` | ratelimit.go:221-249 | definition of the answers to successive calls of `allowed` on one window, each from the window the previous call stored (as at ratelimit.go:135-154 for a known client); the only ensures is that there is one answer per call |
| `Window.RunStep` | ratelimit.go:132-168 | unfolding of `Run`: the k-th answer of a run of calls is the answer of call k from the window its predecessors left |
| `Window.NothingPruned` | ratelimit.go:139-145 | a scan whose cutoff is below every stored entry stops at the first entry and prunes nothing |
| `Window.AdmitWithinWindow` | ratelimit.go:139-154 | a call inside the window of every stored entry is admitted iff fewer than `maxRequests` entries are stored, appends its time when admitted, and leaves the window unchanged when refused |
| `Window.QuotaWithinWindow` | ratelimit.go:132-168 | inside one window, a window of n recent entries admits exactly the next `maxRequests - n` calls and refuses the rest, and refuses every call when n is already `maxRequests` or more |
| `Window.QuotaFromEmpty` | ratelimit.go:221-249 | from an empty history, calls inside one window are admitted exactly up to the limit (TestLimitedGet and the other TestLimited* tests, ratelimit_test.go:253-268) |
| `Window.ResetAfterWindow` | ratelimit_test.go:128-158 | once a whole window has passed, a capacity of two or more is available again in full; this is the second round of TestRateLimitReset |
| `Window.CapacityOneLocksOut` | ratelimit.go:139-152 | as written: with capacity at most one and a non-empty history, every later call is refused forever |
| `Window.FirstInWindowSpec` | ratelimit.go:139-145 | the intended scan skips exactly the stale prefix |
| `Window.IntendedPrunedShape` | ratelimit.go:139-145 | intended pruning keeps a suffix that starts inside the window, and is empty iff every entry is stale |
| `Window.IntendedAdmitRule` | ratelimit.go:145-154 | the intended decision is the same rule on the intended kept window |
| `Window.IntendedResetsAfterExpiry` | ratelimit.go:139-152 | intended: once every entry is stale, the next call is admitted iff the capacity is positive, and the window restarts at `[now]` |
| `Window.CapacityOneStaysFull` | ratelimit.go:139-152 | as written versus intended, at capacity one with one stale entry: refused as written, admitted as intended |
| `Window.PrunedVersusIntended` | ratelimit.go:139-145 | both prunings agree except on a wholly stale history, where as written one entry remains |
| `Window.PrunedStaleHead` | ratelimit.go:139-145 | pruning drops a stale first entry unless it is the only one |
| `Window.PrunedShadow` | ratelimit.go:139-145 | a window that differs from the intended one by a stale head prunes to the same window, or to that lone stale entry |
| `Window.DecideShadow` | ratelimit.go:147-152 | for capacity two or more, a lone stale entry in place of an empty window changes neither the answer nor, after admission, what later calls see |
| `Window.StepAgrees` | ratelimit.go:132-168 | one call gives the same answer as written and as intended, and leaves windows that again differ by at most a stale head |
| `Window.AgreesWithIntended` | ratelimit.go:132-168 | for capacity two or more and a clock that does not go back, every run of calls is answered as the intended rule answers it |
| `Window.IntendedQuota` | ratelimit.go:145-154 | under the intended rule, a window of n recent entries admits exactly the next `maxRequests - n` calls inside one window |
| `Window.ClockStepBackDiffers` | ratelimit.go:139-152 | when the clock steps back (readings 100 then 12, capacity 2, duration 10, window `[5]`), the stale entry kept by the scan comes back into the window: refused as written, admitted as intended |
| `Handler.Answers` | ratelimit.go:132-168 | definition of the handler's answers to a series of arrivals on the per-client map, each call storing its client's new window; the only ensures is that there is one answer per arrival |
| `Handler.TimesOf` | ratelimit.go:132-168 | definition of the times at which one client's requests reach `allowed`, in order |
| `Handler.AnswersOf` | ratelimit.go:132-168 | definition of the answers `allowed` gives to one client's requests, in order |
| `Handler.RunClient` | ratelimit.go:132-168 | definition of the answers to one client's successive requests from its stored window (None before its first request); the only ensures is that there is one answer per request |
| `Handler.InboundDecision` | ratelimit.go:135-163 | definition of one inbound call: an unseen client is stored as `[now]` and admitted iff `maxRequests > 1`; a known one goes through `Window.Admit` |
| `Handler.IntendedInboundDecision` | ratelimit.go:135-163 | definition of the intended inbound call: an unseen client is treated as an empty window under the intended rule |
| `Handler.RunClientIntended` | ratelimit.go:132-168 | definition of the answers the intended rule gives to one client's successive requests; the only ensures is that there is one answer per request |
| `Handler.FirstRequest` | ratelimit.go:155-163 | an unseen client is recorded as `[now]` and admitted iff the capacity exceeds one |
| `Handler.InboundWindowNonEmpty` | ratelimit.go:135-163 | after a call the client's window is never empty |
| `Handler.WindowsAfterCall` | ratelimit.go:154-157 | storing one client's window leaves every other client's alone and keeps all windows non-empty |
| `Handler.RunClientKnown` | ratelimit.go:135-154 | a known client's answers are the sliding-window run from its stored window |
| `Handler.ClientsIndependent` | ratelimit.go:132-168 | in any interleaving of clients, the answers to one client depend only on that client's own calls |
| `Handler.InboundQuota` | ratelimit_test.go:70-96 | for a capacity of two or more, a new client calling inside one window is admitted for exactly its first `maxRequests` calls (TestIPRateLimit, TestHeaderRateLimit, TestTokenRateLimit, TestCookieRateLimit) |
| `Handler.TwoClientsFullQuota` | ratelimit_test.go:160-185 | for a capacity of two or more, two interleaved new clients each get their full quota (TestTwoClientsRateLimit) |
| `Handler.AtMostOneNeverAdmits` | ratelimit.go:139-163 | as written: with capacity at most one the handler admits nothing, from any reachable state |
| `Handler.IntendedFirstRequest` | ratelimit.go:155-163 | intended: an unseen client is admitted iff the capacity is positive, like an empty window |
| `Handler.CapacityOneFirstRequest` | ratelimit.go:159 | at capacity one the first request is refused as written and admitted as intended |
| `Handler.InboundAgreesWithIntended` | ratelimit.go:132-168 | for capacity two or more and a clock that does not go back, a new client's answers as written equal the intended ones |
| `Handler.Gate` | ratelimit.go:174-181 | a request is forwarded iff the policy identifies the client and that client is admitted; otherwise the answer is 429 "Too many requests." |
| `Handler.RateLimitHandler.constructor` | ratelimit.go:77-86 | a new handler has the given capacity, duration and policy, and no windows |
| `Handler.RateLimitHandler.Allowed` | ratelimit.go:132-168 | the answer and the client's new window are those of the decision rule; an unseen client gets `[now]` and is admitted iff the capacity exceeds one; no other client's window changes; windows stay non-empty, so with a capacity of at most one nothing is ever admitted |
| `Handler.RateLimitHandler.Guard` | ratelimit.go:173-197 | shared body of both gates: a policy failure answers 429 and changes nothing; otherwise the client's window advances and the outcome is the gate's |
| `Handler.RateLimitHandler.ServeHTTP` | ratelimit.go:173-182 | forwards to the wrapped handler exactly when the client is identified and admitted, else answers 429; only that client's window changes |
| `Handler.RateLimitHandler.LimitHandlerFunc` | ratelimit.go:186-197 | the returned closure applied to a request: as ServeHTTP, forwarding to the given handler function |
| `Handler.ZeroLimitScenario` | ratelimit_test.go:51-68 | with a capacity of zero, both the first and a later request are answered 429 (TestZeroLimitHandlerFunc) |
| `Policy.GetClient` | ratelimit.go:46-50 | definition of the policy dispatch used by both gates (ratelimit.go:174, 188): each policy's own rule |
| `Policy.HeaderClient` | ratelimit.go:90-97 | the header policy succeeds iff the header's first value is non-empty, with that value; otherwise it fails with NoHeaderValueErr |
| `Policy.CookieClient` | ratelimit.go:101-108 | the cookie policy succeeds iff the cookie is present, with its value; otherwise it fails |
| `Policy.IPClient` | ratelimit.go:112-115 | the IP policy succeeds iff the remote address splits into host and port, with the host |
| `Policy.TokenClient` | ratelimit.go:119-130 | an empty Authorization header gives NoAuthorizationHeaderErr; one without "Bearer " gives NoBearerPrefixErr; otherwise the client is the rest of the value |
| `Policy.TokenRoundTrip` | ratelimit.go:119-130 | "Bearer " followed by a token yields exactly that token; any other non-empty value is refused for its prefix (TestTokenRateLimit, ratelimit_test.go:218-251) |
| `Policy.TokenNeedsAuthorization` | ratelimit.go:120-123 | without an Authorization header the token policy fails for that reason |
| `Policy.HeaderClientNonEmpty` | ratelimit.go:90-97 | the header policy never yields the empty client, and yields the header's value when it succeeds |
| `Requester.Message` | ratelimit.go:30 | definition of the error text: "Rate limit exceeded." for the limiter's error, the wrapped requester's own text otherwise |
| `Requester.Backend.constructor` | requester.go:27-77 | the wrapped requester starts with no recorded calls |
| `Requester.Backend.Perform` | requester.go:27-77 | the wrapped requester answers a call by its fixed reply function and records the call |
| `Requester.RateLimitRequester.constructor` | ratelimit.go:211-219 | a new outbound limiter has the given limit and duration and an empty history |
| `Requester.RateLimitRequester.Allowed` | ratelimit.go:221-249 | the answer and the new history are those of the decision rule; from an empty history the call is admitted iff the limit is positive, leaving `[now]` |
| `Requester.RateLimitRequester.Forward` | ratelimit.go:253-259 | the common shape of every request method: the history advances; an admitted call reaches the wrapped requester once and its reply is returned; a refused one does not reach it and yields RateLimitExceededErr, whose text is "Rate limit exceeded." |
| `Requester.RateLimitRequester.Get` | ratelimit.go:253-259 | Get is gated as above |
| `Requester.RateLimitRequester.Post` | ratelimit.go:263-269 | Post is gated as above |
| `Requester.RateLimitRequester.PostJson` | ratelimit.go:273-279 | PostJson is gated as above |
| `Requester.RateLimitRequester.PostRaw` | ratelimit.go:283-289 | PostRaw is gated as above |
| `Requester.RateLimitRequester.PostMultipart` | ratelimit.go:293-299 | PostMultipart is gated as above |
| `Requester.RateLimitRequester.PostValues` | ratelimit.go:303-309 | PostValues is gated as above |
| `Requester.RateLimitRequester.Put` | ratelimit.go:313-319 | Put is gated as above |
| `Requester.RateLimitRequester.PutJson` | ratelimit.go:323-329 | PutJson is gated as above |
| `Requester.RateLimitRequester.PutRaw` | ratelimit.go:333-339 | PutRaw is gated as above |
| `Requester.RateLimitRequester.PutMultipart` | ratelimit.go:343-349 | PutMultipart is gated as above |
| `Requester.RateLimitRequester.PutValues` | ratelimit.go:353-359 | PutValues is gated as above |
| `Requester.RateLimitRequester.Delete` | ratelimit.go:363-369 | Delete is gated as above |
| `Requester.RateLimitRequester.MakeRequest` | ratelimit.go:371-377 | makeRequest is gated as above; its payload may be absent (nil) |
| `Requester.EmptyHistory` | ratelimit.go:233-243 | an empty history admits the first call iff the limit is positive, and then holds just that call |
| `Requester.LimitOneSecondRefused` | ratelimit.go:221-249 | with a limit of one, of two calls inside one window the first is admitted and the second refused |
| `Requester.LimitedGetScenario` | ratelimit_test.go:253-268 | a requester limited to one call per hour passes the first Get through and refuses the second without reaching the wrapped requester (TestLimitedGet) |
| `Payload.PayloadFromRawData` | payload.go:68-70 | raw data is carried verbatim, tagged application/octet-stream |
| `Payload.PayloadFromValues` | payload.go:50-55 | the encoded values are the body, tagged application/x-www-form-urlencoded |
| `Payload.PayloadOrigin` | payload.go:50-70 | a payload's content type tells which constructor made it from its bytes: raw data iff tagged as an octet stream, a form iff tagged as a form, never both |
| `Payload.Message` | payload.go:132-134 | definition of the error text: "Name has already been used." |
| `Payload.MultipartPayload.constructor` | payload.go:27-32 | a new multipart payload has nil value and file maps |
| `Payload.MultipartPayload.HasName` | payload.go:107-121 | a name is reported used iff it is a value name or a file name |
| `Payload.MultipartPayload.Add` | payload.go:124-138 | the value map is created when nil; the call fails with "Name has already been used." iff the name is a value or a file, changing nothing; otherwise it stores the value; the files are untouched; names stay unique across values and files |
| `Payload.MultipartPayload.AddFile` | payload.go:141-155 | as Add, for files |
| `Payload.DubletsScenario` | payload_test.go:69-93 | a name is accepted once and refused the second time, for values and for files, and a value name is refused as a file name (TestMultipartDublets) |
| `Verify.FieldNamePresent` | verify.go:69-72 | definition: the Go field name is a key of the decoded object |
| `Verify.FieldJsonTagPresent` | verify.go:74-84 | definition: the json tag is non-empty and its name part is a key of the decoded object |
| `Verify.SkipFieldTagPresent` | verify.go:86-93 | definition: the walgo tag is exactly "skip" |
| `Verify.Passes` | verify.go:53 | definition of the per-field condition: skipped, or present through its json tag, or present through its Go name |
| `Verify.Check` | verify.go:41-67 | definition of the verdict: not a struct, decode error, the first missing field, bind error, or success, in that order |
| `Verify.JsonName` | verify.go:74-84 | the name part of a json tag is the prefix before the first comma, or the whole tag |
| `Verify.FirstMissing` | verify.go:50-56 | the loop's stopping point: every earlier field passes, and the field there fails |
| `Verify.VerifyData` | verify.go:41-67 | the loop and its exits yield exactly the specified verdict: non-struct, decode error, first missing field, bind error, or success |
| `Verify.FirstMissingIsFirst` | verify.go:50-56 | the first failing field is determined by the fields before it passing and itself failing |
| `Verify.CheckOkIff` | verify.go:41-67 | verification succeeds iff the target is a struct, the body decodes as an object, every field passes and the body binds; it succeeds iff no error is returned |
| `Verify.FirstMissingReported` | verify.go:50-56 | the error names the first missing field in declaration order |
| `Verify.SkipFieldShift` | verify.go:86-93 | inserting a skipped field moves the index of the first failing field by one exactly when that field came after the insertion point |
| `Verify.SkipFieldIgnored` | verify.go:86-93 | inserting a field tagged `walgo:"skip"` anywhere changes neither whether a field is missing nor which one |
| `Verify.SkipFieldVerdict` | verify.go:50-56 | the same at the level of the verdict |
| `Verify.JsonTagNamePart` | verify.go:74-84 | a json tag with options counts exactly through the name before the comma |
| `Verify.JsonNameOfSplit` | verify.go:80 | splitting `name,options` at the first comma gives `name` |
| `Verify.JsonNameNoComma` | verify.go:80 | a tag without a comma is its own name |
| `Verify.VerifyBody` | verify.go:23-39 | an unreadable body is answered 500 with the read error; a body that does not verify is answered 400 with an empty message; otherwise `next` is called |
| `Verify.CallNextIff` | verify.go:23-39 | `next` is reached exactly when the body is read, the target is a struct, every field is present and the body binds |
| `Verify.VerificationTypeVerdicts` | verify_test.go:10-66 | the test type verifies with keys Foo and bar, and fails at Foo with neither |
| `Verify.VerificationTypePasses` | verify_test.go:10-40 | every field of the test type passes on the body of TestVerifyBody |
| `Verify.VerifyScenarios` | verify_test.go:16-92 | TestVerifyBody calls next; TestVerifyBodyFail and TestVerifyBodyInvalidType answer 400 |
| `Multipart.AddPart` | multipart.go:54-71 | definition of storing one named part: appended to the values of its name, or, with a file name, appended as a File to the files of its name |
| `Multipart.ReadFrom` | multipart.go:37-74 | definition of the fold over the parts: nameless parts skipped, the first read failure returned, the reader's own error or end of file at the end |
| `Multipart.ReadLargeForm` | multipart.go:32-75 | the loop computes the specified fold over the parts: skip nameless parts, fail on a read error, sort values and files, and end with the reader's outcome |
| `Multipart.SomeReadFailsStep` | multipart.go:46-69 | some named part fails to read iff the first part does or some later part does |
| `Multipart.ReadFromSucceeds` | multipart.go:37-74 | reading succeeds iff no named part fails to read and the reader ends with end of file |
| `Multipart.ReadFromContents` | multipart.go:54-71 | after a successful read, the values and files under each name are those of the parts with that name, in arrival order, appended to what was there |
| `Multipart.AddPartContents` | multipart.go:54-71 | one named part adds its content to the values or, with a file name, a File to the files of its name, and nothing else |
| `Multipart.ReadLargeFormContents` | multipart.go:32-75 | `ReadLargeForm` succeeds iff no named part fails and the reader ends cleanly; the form then holds, under each name, exactly the values and files of that name in arrival order |
| `Multipart.EachPartOnce` | multipart.go:54-71 | every named part lands in exactly one place: values plus files under a name count the parts with that name |
| `Multipart.ReadFailsAtFirstBadPart` | multipart.go:55-58 | the error is the read failure of the first named part that fails |
| `Multipart.FirstValue` | multipart.go:76-86 | definition: the first value under the name, or "" when there is none |
| `Multipart.FirstFile` | multipart.go:88-99 | definition: the content and file name of the first file under the name, or nothing and "" |
| `Multipart.Value` | multipart.go:76-86 | the search returns the first value under the name, or "" |
| `Multipart.FileOf` | multipart.go:88-99 | the search returns the first file's content and name under the name, or nil and "" |
| `Multipart.ValueOfRead` | multipart.go:76-86 | after a successful read, Value gives the first value part with that name, or "" |
| `Multipart.FileOfRead` | multipart.go:88-99 | after a successful read, File gives the first file part with that name, or nothing |

## Left out

- Window.AgreesWithIntended, Handler.InboundAgreesWithIntended, Window.AdmitKeepsSorted, Window.ResetAfterWindow: these assume non-decreasing clock readings. The source reads the wall clock, which can step back, and then the two rules can differ: `Window.ClockStepBackDiffers` shows a case, at capacity 2 and duration 10 with window `[5]`, where readings 100 then 12 give admit, refuse as written and admit, admit as intended.
- Clock: `time.Now()` becomes a parameter `now`, one reading per call. The source reads the clock on every scan iteration (ratelimit.go:140, 228) and again when appending (151, 242). The model takes the readings of one call as simultaneous. When the clock advances across an entry's expiry during a call, the source may keep an entry the model drops, and it stores a later time than `now`.
- Locking: the `sync.Mutex` only serialises calls, so there is no model of concurrency; every call is atomic.
- Integers: `int64` nanosecond time and `now - duration` are unbounded integers, so overflow of `int64` is not modelled. `time.Duration` is an integer count of nanoseconds.
- Header lookup: keys are assumed already canonicalised (MIME header canonicalisation is not modelled). `Header.Get` is the first value.
- IP policy: `net.SplitHostPort` is abstracted as the request's `remoteHost`, None when the address does not split.
- Cookie policy: `r.Cookie` is abstracted as a cookie map. A missing cookie gives one `NoCookie` error rather than `http.ErrNoCookie`.
- HTTP responses: the response writer and the wrapped handler's own behaviour become an `Outcome`. A gate either forwards to the named downstream or writes 429 with its message.
- Requester.Backend: the wrapped requester's network behaviour is a fixed reply function. The limiter passes its reply through unchanged.
- JSON, URL and multipart encodings: not modelled. `payloadFromValues` receives the result of `url.Values.Encode` as bytes; JSON values are carried as strings.
- Verify.VerifyData: `reflect` is modelled by the `Target` datatype. The first `json.Unmarshal` into a map becomes the set of top-level keys, or None when it fails; the second, into the target, becomes `bindOk`.
- Verify.VerifyBody: `ioutil.ReadAll` becomes `readError`, and the body is not restored for the next handler.
- Multipart.ReadLargeForm: the `multipart.Reader` is a finite sequence of parts followed by end of file or an error. Values are byte sequences where the source converts them with `b.String()`.
- Multipart: nil and empty slices are not distinguished; `Form.File` returns `[]` where the source returns nil.
- Not part of this model: `payloadFromMultipart`, `createJsonPayload`, `GetLargeForm`, `SaveTemporaryFile*`, the `makeRequest` of requester.go, and methods.go, response.go, helpers.go, relations.go, util.go and walgo.go. The rate limiter's delegating methods are modelled; what the wrapped requester does with a call is not.

## Findings

| source | as written | input that shows it | evidently intended | confidence | as-written member | corrected member |
|---|---|---|---|---|---|---|
| ratelimit.go:139-145 (and 227-236) | the `range` scan leaves `i` on the last index when every stored time is stale, so `counts[i:]` keeps one expired entry | capacity 1, window `[t0]`, next call at `now > t0 + duration`: the kept window `[t0]` is full, so the call is refused, and every later call is refused too | when every entry has expired the window is empty and the call is admitted | not executed | `Window.CapacityOneStaysFull`, `Window.CapacityOneLocksOut` | `Window.IntendedAdmit` with `Window.IntendedResetsAfterExpiry`; `Window.AgreesWithIntended` proves the two agree for capacity 2 or more when the clock does not go back |
| ratelimit.go:159 | a client's first request is admitted only when `maxRequests > 1` | capacity 1, first request of a new client: refused, although the window holds nothing yet | the first request is admitted when `maxRequests > 0`, as the requester does | not executed | `Handler.CapacityOneFirstRequest`, `Handler.AtMostOneNeverAdmits` | `Handler.IntendedInboundDecision` with `Handler.IntendedFirstRequest`; `Handler.InboundAgreesWithIntended` proves agreement for capacity 2 or more when the clock does not go back |

Together these findings mean that a `RateLimitHandler` with capacity 1 admits no request at all. The classes keep the behaviour as written. The intended rules are proved beside them and agree with them for every capacity of two or more, as long as the clock does not go back.
