# Verified model of the gateway plugin

The gateway is a set of KrakenD plugins: a merge of YAML configuration trees, and HTTP middlewares that
authenticate a request, limit its rate, rewrite its headers and turn empty answers into error bodies. This
project models the parts that compute something and proves what they guarantee for every input, every run
and every schedule. `dafny verify dfyconfig.toml` checks it.

## How it is organised

**YAML merge.** `YamlTree` is the merge on values, including what the target holds after a failure.
`YamlNode` is the same merge as the program does it: in place on a heap of nodes whose subtrees end up shared
between source and target; its contracts equate the resulting tree and error with `YamlTree.Merge`. The laws are
proved about the function: extension order (`YamlExtension`), paths (`YamlPaths`), conflicts (`YamlConflict`),
conservation of leaves (`YamlLeaves`), associativity (`YamlAssociativity`) and merges of many documents
(`YamlGroupings`). `YamlConfig` is the merge of two files, and `YamlAliasing` builds a source with a duplicate key and
shows that the merge writes to it.

**Composite rate limiter.** `CompositeLimiter` is a state machine with one goroutine per limiter, a wait group, and
a once whose winner writes three shared variables one at a time; each charge may get any answer from the store. Its
invariant holds in every reachable state of every schedule. `CompositeLimiterLaws` derives what a call returns, that
every call returns, and what follows for the grants over a run of requests. `RateKey` is the key a limiter charges,
and `RateLimitConfig` leads from a configuration to the limiters of a request.

**Pipelines.** `PipelineBuild` holds the right-to-left and the left-to-right fold and their laws;
`MiddlewareRegistry` the table of makers and the builds of the client and the server plugin; `ClientPlugin` the client's
three middlewares and what a list of their names builds; `MiddlewareList` the package-level list. `Pipeline` runs a
request through a built chain of error handlers, member-auths and limiters. What member-auth and a limiter decide at a
position is a parameter there; `PipelineGrants` ties it to what the
member-auth handler decides and to a run of the composite limiter, and bounds backend calls by the grants of the store.

**Authentication and headers.** `MemberAuth` finds a token (with `Base64Url` for its payload), overrides the session
with partner data and checks privileges. `MandatoryHeaders` and `BackendHeaders` compute and set the headers of a
backend request; `HeaderContents` says what each of them holds in terms of session and request, and `HeaderFixpoint` what
a second gateway changes. `ErrorHandler` is the buffering error handler.

`Http`, `Text` and `Wrappers` hold the shared vocabulary. Header names are compared in canonical form, so the names
the program uses are constructors of one datatype; strings are sequences of ASCII characters.

## Where the code differs from what is intended

- Reading a configuration means to stop on a failed merge (pkg/helper/yamlparser/yamlparser.go:63-66), but the trees of
  two non-empty files are documents, and the merge drops the error of a document's child (lines 132-133). Between two
  non-empty files a clash is therefore never reported: the result silently lacks everything after it.
  `YamlConfig.MergeFiles` states when an error is reported and what is kept, `YamlAssociativity.DocumentMergeNotAssociative`
  gives inputs for which the order of merges then matters, and `YamlGroupings.LosslessIffPairwiseClear` says exactly which
  lists of documents lose nothing; for these the order does not matter (`YamlGroupings.GroupingDoesNotMatter`). That the
  results are equal can also happen by accident: `YamlGroupings.EqualDespiteClash`.
- Rate limit keys are joined with colons without escaping. `RateKey.SameKeyIff` says exactly when two keys are equal,
  and `RateKey.ColonsCollide` gives two requests that share one although their values differ.
- The error handler compares a media type, which never has parameters, with a constant that has one (error_handler.go:58
  in the client plugin). So only answers without a content type get a JSON body, `ErrorHandler.JsonOnlyWithoutContentType`,
  and one that says it is JSON gets plain text, `ErrorHandler.EmptyJsonGetsPlainText`.
- A session without a user name is charged to the empty user by a limiter, while the backend is told "guest":
  `HeaderContents.ChargedUserIsSeen`.
- A second application of the header rewriting is not always idempotent up to the request ID:
  `HeaderFixpoint.SecondApplication` gives the exact condition, `HeaderFixpoint.CookieIdentityIsLost` and
  `HeaderFixpoint.CutAddressIsReplaced` the two ways in which it fails.
- An empty answer gets the body of an internal error unless its status is one of six, also when it succeeded:
  `ErrorHandler.InternalErrorIffNotListed` and `ErrorHandler.EmptyOkSaysInternalError`.

## Model

| member | source | states |
|---|---|---|
| YamlTree.Find | pkg/helper/yamlparser/yamlparser.go:117-118 | the first entry with an equal key, or none |
| YamlNode.RecursiveMerge | pkg/helper/yamlparser/yamlparser.go:109-138 | terminates; the target stays a well-formed tree over its own and the source's nodes; its tree and the error are those of the pure merge; the only writes append to the content of mappings and sequences, so every node keeps its children at their places, duplicate keys or not; with distinct keys no node of the source is written at all |
| YamlNode.MergeMappings | pkg/helper/yamlparser/yamlparser.go:114-129 | the same for two mappings |
| YamlNode.MergeContent | pkg/helper/yamlparser/yamlparser.go:115-129 | the loop over the source's pairs gives the merge of the entry lists and stops at the first failure with what was merged until then; nodes only grow, and the source is untouched if its keys are distinct |
| YamlNode.FindKey | pkg/helper/yamlparser/yamlparser.go:117-124 | the inner loop, comparing scalar keys by value, finds the first equal key among alternating keys and values |
| YamlNode.MergePair | pkg/helper/yamlparser/yamlparser.go:116-128 | one source pair: the target gets the entry merged or appended, the error names the key, the values under other keys keep their nodes |
| YamlNode.MergeUnderKey | pkg/helper/yamlparser/yamlparser.go:119-122 | an equal key: merges into the value and prefixes the error with the key |
| YamlNode.AppendPair | pkg/helper/yamlparser/yamlparser.go:126-128 | no equal key: key and value node are appended and now belong to both trees |
| YamlNode.AppendContent | pkg/helper/yamlparser/yamlparser.go:130-131 | the source's items are appended, in order |
| YamlNode.MergeDocuments | pkg/helper/yamlparser/yamlparser.go:132-133 | the children are merged and the inner error is dropped |
| YamlNode.Node.OfDocument | pkg/helper/yamlparser/yamlparser.go:53-61 | what the parser puts above a non-empty file: a well-formed document node |
| YamlAliasing.MakeSource | pkg/helper/yamlparser/yamlparser.go:116-128 | a well-formed source with one key twice can be built |
| YamlAliasing.MergeIntoEmpty | pkg/helper/yamlparser/yamlparser.go:116-128 | merging it into an empty mapping writes to a node of the source |
| YamlConfig.MergeFiles | pkg/helper/yamlparser/yamlparser.go:51-73 | the two files as parsed: tree and error are those of the merge of their roots, duplicate keys or not; an error is reported iff a file is empty; with distinct keys the result is the whole merge if nothing clashes, and else the merge of the part before a clash |
| YamlExtension.MergeExtends | pkg/helper/yamlparser/yamlparser.go:109-138 | success or failure, the target keeps every scalar, the order and position of its entries, and each sequence as a prefix, at every depth |
| YamlExtension.ExtendsReflexive | pkg/helper/yamlparser/yamlparser.go:109-138 | the extension relation is reflexive |
| YamlExtension.ExtendsTransitive | pkg/helper/yamlparser/yamlparser.go:109-138 | the extension relation is transitive, so it also holds over any chain of merges |
| YamlExtension.MergeKeepsDistinct | pkg/helper/yamlparser/yamlparser.go:115-128 | merging trees with distinct keys never creates a duplicate key, failure included |
| YamlPaths.MergeSucceedsIffNoClash | pkg/helper/yamlparser/yamlparser.go:109-138 | a merge succeeds iff no path present in both trees ends in different kinds or in a leaf |
| YamlPaths.MergeAtPath | pkg/helper/yamlparser/yamlparser.go:114-131 | after a success each path holds the merge of what both trees held there, or what the one that had it held |
| YamlPaths.ScalarPathsAreUnion | pkg/helper/yamlparser/yamlparser.go:114-129 | after a success the paths to scalars are the union of both inputs' |
| YamlConflict.FailedMergeIsMergeOfPrefix | pkg/helper/yamlparser/yamlparser.go:110-121 | a failure names the path of a clash and its reason; the target then holds the merge of exactly the part of the source before that path |
| YamlConflict.FailedEntriesAreMergeOfPrefix | pkg/helper/yamlparser/yamlparser.go:115-125 | the same for the entries of a mapping |
| YamlConflict.DocumentDropsFailure | pkg/helper/yamlparser/yamlparser.go:63-66 | two documents never fail; the whole is merged iff nothing clashes, otherwise the result is the merge of the part before the clash |
| YamlLeaves.MergeConservesLeaves | pkg/helper/yamlparser/yamlparser.go:114-131 | for each leaf, the target keeps its occurrences and gains at most the source's; on success exactly those |
| YamlAssociativity.MergeEntriesKeys | pkg/helper/yamlparser/yamlparser.go:115-128 | after a success the target's keys come first, then the new ones in the order of the source |
| YamlAssociativity.MergeAssociative | pkg/helper/yamlparser/yamlparser.go:109-138 | merging a into (b into c) and (a into b) into c: both fail or both give the identical tree, key order included |
| YamlGroupings.LosslessIffPairwiseClear | pkg/helper/yamlparser/yamlparser.go:132-133 | however a list of documents is grouped, no merge drops a failure iff no two of the trees clash, a condition on the inputs alone |
| YamlGroupings.GroupingDoesNotMatter | pkg/helper/yamlparser/yamlparser.go:132-133 | if no two of the trees clash, every grouping of their documents gives the same document |
| YamlGroupings.ClashWithMerged | pkg/helper/yamlparser/yamlparser.go:109-138 | a successful merge clashes with a third tree at a path iff one of its inputs does, in either direction |
| YamlGroupings.ThreeAreLosslessIffClear | pkg/helper/yamlparser/yamlparser.go:132-133 | for three documents: both orders are without loss iff they are pairwise clear of clashes |
| YamlGroupings.DocumentMergeAssociative | pkg/helper/yamlparser/yamlparser.go:132-133 | three documents that do not clash pairwise can be merged in either order |
| YamlGroupings.EqualDespiteClash | pkg/helper/yamlparser/yamlparser.go:132-133 | the converse fails: with nothing in the first, both orders agree whatever the others lose |
| YamlAssociativity.DocumentMergeNotAssociative | pkg/helper/yamlparser/yamlparser.go:132-133 | with a clash inside, the order of merges decides whether a whole configuration is lost |
| CompositeLimiter.StepKeepsInv | plugin_/http-client/middleware/redis_rate_limit.go:54-81 | every step of every goroutine keeps the invariant on wait group, once, shared variables and ledger |
| CompositeLimiter.RunInv | plugin_/http-client/middleware/redis_rate_limit.go:54-81 | the invariant holds in every reachable state of every schedule |
| CompositeLimiterLaws.ReturnsOneWholeVerdict | plugin_/http-client/middleware/redis_rate_limit.go:69-81 | the answer is one whole verdict of a limiter that was limited or erred, and the zero verdict iff there is none |
| CompositeLimiterLaws.FailureIsAnAnswer | plugin_/http-client/middleware/redis_rate_limit.go:116-136 | a failing answer is that of the store to one charge: its error, or a refusal (nothing allowed) with its remaining budget and its times, and the burst of the limiter |
| CompositeLimiterLaws.ForwardedIffGranted | plugin_/http-client/middleware/redis_rate_limit.go:61-81 | the request is forwarded iff the store granted every charge, that is, allowed more than nothing without an error |
| CompositeLimiterLaws.EachChargedOnce | plugin_/http-client/middleware/redis_rate_limit.go:61-77 | every limiter is charged exactly once, under its key, and its verdict rests on that charge |
| CompositeLimiterLaws.RunsAreBounded | plugin_/http-client/middleware/redis_rate_limit.go:61-79 | no schedule of n limiters is longer than 8n + 1 steps |
| CompositeLimiterLaws.NeverStuck | plugin_/http-client/middleware/redis_rate_limit.go:61-79 | until the call returns some step is always possible: no deadlock on wait group or once |
| CompositeLimiterLaws.FastPathAgrees | plugin_/http-client/middleware/redis_rate_limit.go:50-52 | for a single limiter, the direct path and the concurrent one agree on decision and error, and on the result if it fails |
| CompositeLimiterLaws.ForwardedUsesGrants | plugin_/http-client/middleware/redis_rate_limit.go:116-136 | a request charges each key once per limiter with that key; a forwarded one was granted each of these charges |
| CompositeLimiterLaws.ForwardedWithinGrants | plugin_/http-client/middleware/redis_rate_limit.go:27-40 | over any run of requests, m times the forwarded requests that charge a key with m limiters is at most the grants on that key |
| RateKey.KeyerKey | plugin_/http-client/middleware/redis_rate_limit.go:171-218 | the part of one keyer is the join of its values: method, lower-cased user, headers or parameters |
| RateKey.Keyers | plugin_/http-client/middleware/redis_rate_limit.go:227-251 | for every request, the keyers a configuration asks for give exactly the values varied over, in order, and none gives an empty list |
| RateKey.RateLimitKey | plugin_/http-client/middleware/redis_rate_limit.go:138-146 | the nested join of the keyers' parts is the flat join of all values after the prefix |
| RateKey.KeyFor | plugin_/http-client/middleware/redis_rate_limit.go:95-104 | the key of a request under a configuration, in flat form |
| RateKey.SameKeyIff | plugin_/http-client/middleware/redis_rate_limit.go:138-146 | two keys under one prefix are equal iff the values, cut at their colons, are the same list |
| RateKey.ColonFreeKeysAreInjective | plugin_/http-client/middleware/redis_rate_limit.go:138-146 | without colons in the values, keys are equal iff the tuples of values are, whatever the two limiters vary over |
| RateKey.SameBucketIff | plugin_/http-client/middleware/redis_rate_limit.go:171-218 | for colon-free values one limiter charges two requests alike iff they have the same method, user, headers and query parameters, as far as it varies over them and letter case aside |
| RateKey.FullKey | plugin_/http-client/middleware/redis_rate_limit.go:138-146 | the text of a key: prefix, method, user, header, parameter, in this order |
| RateKey.ColonsCollide | plugin_/http-client/middleware/redis_rate_limit.go:194-203 | a colon in a header value makes different values share a key |
| RateKey.OneLimiterCollides | plugin_/http-client/middleware/redis_rate_limit.go:194-203 | also within one limiter: two headers holding "a:b" and "c" are charged like "a" and "b:c" |
| RateKey.OneValueIsInjective | plugin_/http-client/middleware/redis_rate_limit.go:138-146 | a limiter that varies over exactly one value never confuses two requests, colons or not |
| Text.SplitOfJoin | plugin_/http-client/middleware/redis_rate_limit.go:138-146 | splitting a joined key gives the pieces of its parts |
| Text.JoinOfSplit | plugin_/http-client/middleware/redis_rate_limit.go:138-146 | joining undoes splitting, so distinct keys have distinct pieces |
| RateLimitConfig.LimitIsValid | plugin_/http-client/middleware/redis_rate_limit.go:153-159 | a limit is valid iff rate and burst are positive |
| RateLimitConfig.LimiterIsValid | plugin_/http-client/middleware/redis_rate_limit.go:259-271 | a limiter is valid iff its limit and all overrides are |
| RateLimitConfig.ConfigIsValid | plugin_/http-client/middleware/redis_rate_limit.go:293-301 | a configuration is accepted iff it has limiters and all are valid |
| RateLimitConfig.Limiters | plugin_/http-client/middleware/redis_rate_limit.go:84-120 | each configured limiter charges its own key, behind the service and the endpoint, under the override spelt like that key or else its own limit |
| RateLimitConfig.AcceptedConfigGivesPositiveLimits | plugin_/http-client/middleware/redis_rate_limit.go:116-136 | from an accepted configuration to the answer: no charge under a non-positive limit, and a refusal reports the positive burst of a configured limiter |
| PipelineBuild.BuildOfConcat | plugin_/http-client/middleware/plugin.go:121-131 | building a concatenated list is nesting the two builds |
| PipelineBuild.FailureHasAnEntry | plugin_/http-client/middleware/plugin.go:124-127 | a build fails with an error iff some entry refuses, with that error, what was built to its right |
| PipelineBuild.FailingEntryIsRightmost | plugin_/http-client/middleware/plugin.go:121-128 | that entry is the rightmost failing one: every list starting after it builds, every one starting at or before it does not |
| PipelineBuild.ReportsTheLastFailingEntry | plugin_/http-server/plugin.go:58-73 | if entries fail regardless of what they wrap, the error is that of the last failing entry of the list |
| PipelineBuild.ReverseAt | pkg/plugin/middleware/middleware.go:40-47 | what the reversed list holds at each position |
| PipelineBuild.LeftBuildIsReversed | pkg/plugin/middleware/middleware.go:40-47 | building from the left is building the reversed list from the right |
| MiddlewareRegistry.Registry.RegisterAvailable | plugin_/http-server/plugin.go:78-86 | every name has the last maker registered for it, or keeps the one it had |
| MiddlewareRegistry.LastMakerStays | plugin_/http-server/plugin.go:79-85 | of several makers with one name the last one stays |
| MiddlewareRegistry.OtherMakersStay | plugin_/http-server/plugin.go:79-85 | names that are not registered again keep their maker |
| MiddlewareRegistry.Registry.BuildServer | plugin_/http-server/plugin.go:54-76 | the result is the outermost of a chain of handlers, each made by its maker from its configuration around the next; or the first error from the right, an unknown name or a refusal |
| MiddlewareRegistry.Registry.BuildClient | plugin_/http-client/middleware/plugin.go:121-131 | the same, provided the loop does not reach an unknown name, where the program panics |
| MiddlewareRegistry.BuildIsUnique | plugin_/http-client/middleware/plugin.go:121-131 | chain or break determine the result |
| ClientPlugin.BuildPipeline | plugin_/http-client/middleware/plugin.go:172-187 | from the three registered middlewares and any list of their names, the built handler is the nest of the layers the names stand for |
| MiddlewareRegistry.RegisteredNamesNeverPanic | plugin_/http-client/middleware/plugin.go:121-128 | with all names registered the client's build cannot panic |
| MiddlewareRegistry.ServerBuildReports | plugin_/http-server/plugin.go:58-73 | the server's build succeeds iff all names are registered and accept their configuration; otherwise it reports the last name that does not, and why |
| MiddlewareList.Middlewares.Register | pkg/plugin/middleware/middleware.go:15-36 | the middlewares of the known names are appended, in order; unknown names are passed over |
| MiddlewareList.SelectedConcat | pkg/plugin/middleware/middleware.go:18-34 | registering two lists in turn is registering their concatenation |
| MiddlewareList.SelectedAre | pkg/plugin/middleware/middleware.go:20-33 | which middleware each known name selects |
| MiddlewareList.Middlewares.RunAll | pkg/plugin/middleware/middleware.go:38-53 | the result is the last of a chain of handlers, each made by its middleware around the one before, or the first error; as a fold, from the left |
| MiddlewareList.RunIsReversedBuild | pkg/plugin/middleware/middleware.go:38-53 | running what was registered is the right-to-left build of the reversed list of known names |
| Pipeline.BuildGivesNest | plugin_/http-client/middleware/plugin.go:121-131 | a build whose entries each add a layer nests the layers in the order of the names |
| Pipeline.RunsInOrder | plugin_/http-client/middleware/plugin.go:121-131 | layers are entered in order up to the first that refuses, nothing after it runs, the backend is called once iff none refuses, and the status is that of the refusal or of the backend |
| Pipeline.EndsSomewhere | plugin_/http-client/middleware/plugin.go:121-131 | every run ends at exactly one place |
| Pipeline.SessionIsFromNearestAuth | plugin_/http-client/middleware/member_auth.go:238-242 | at every position the request differs from the incoming one only in its session, which is that of the nearest member-auth before |
| Pipeline.LimiterKey | plugin_/http-client/middleware/redis_rate_limit.go:181-188 | every limiter that is entered charges the incoming request's key with the user of the nearest member-auth before it, and with "guest" if there is neither such a layer nor a session; if it does not vary over the user, the session does not matter |
| Pipeline.BackendSession | plugin_/http-client/middleware/http_header.go:146-153 | the backend is told the last member-auth's session, each header with its own field of the session |
| Pipeline.BodyBehindErrorHandler | plugin_/http-client/middleware/error_handler.go:21-63 | wherever the run ends, behind an error handler the client gets a body |
| Pipeline.LimiterBody | plugin_/http-client/middleware/redis_rate_limit.go:28-33 | a refusal by a limiter has no body, and behind an error handler the JSON error of its status |
| Pipeline.AuthBody | plugin_/http-client/middleware/member_auth.go:405-409 | a refusal by member-auth reaches the client as the JSON error of its status, whatever error handlers are around it |
| Pipeline.RefusalIs | plugin_/http-client/middleware/redis_rate_limit.go:28-33 | what each kind of gate writes when it refuses |
| Pipeline.BackendAnswers | plugin_/http-client/middleware/plugin.go:90-118 | the answer for each outcome of the call: 504, 503, 502, or the backend's status and body, with its headers after those there |
| Pipeline.BackendAnswerPasses | plugin_/http-client/middleware/plugin.go:105-118 | an answer of the backend with a body that is no 404 comes through every pipeline unchanged, but for headers in front |
| PipelineGrants.BackendCallsWithinGrants | plugin_/http-client/middleware/redis_rate_limit.go:27-82 | over any requests through any pipelines whose limiters run the composite machine: m times the backend calls behind m or more charges on a key is at most the grants on that key |
| PipelineGrants.CalledIsGranted | plugin_/http-client/middleware/redis_rate_limit.go:27-82 | a request that reaches the backend was granted every charge on its way |
| PipelineGrants.PassesIffForwarded | plugin_/http-client/middleware/redis_rate_limit.go:49-82 | the answer, from either path, lets the request pass iff no limiter of the list was limited or erred |
| PipelineGrants.PassesIffGranted | plugin_/http-client/middleware/redis_rate_limit.go:49-82 | a limiter lets a request pass iff the store granted all its charges, on both paths |
| PipelineGrants.ChargedKey | plugin_/http-client/middleware/redis_rate_limit.go:95-104 | each limiter of a gate charges its key for the incoming request with the user of the nearest member-auth before it |
| PipelineGrants.CalledMeansAuthorized | plugin_/http-client/middleware/member_auth.go:161-243 | the backend is called only if every member-auth found a token and got a reply with status 200 and code SUCCESS whose session, overridden, has a configured privilege; it is forwarded with the token |
| Base64Url.DecodeOfEncode | plugin_/http-client/middleware/member_auth.go:379-382 | unpadded base64url decodes what it encodes, for all bytes |
| Base64Url.DecodeAccepts | plugin_/http-client/middleware/member_auth.go:379-382 | exactly which strings the decoder accepts |
| Base64Url.DigitIsInAlphabet | plugin_/http-client/middleware/member_auth.go:379-382 | the digits are those of the URL-safe alphabet, table 2 in section 5 of RFC 4648 |
| Base64Url.EncodesNumbers | plugin_/http-client/middleware/member_auth.go:379-382 | each three bytes and their four digits are the same 24-bit number, and the length is that without padding |
| Base64Url.DecodesNumbers | plugin_/http-client/middleware/member_auth.go:379-382 | four digits decode to the three bytes of their number; at the end the low bits that do not fill a byte are dropped |
| Base64Url.StripIs | plugin_/http-client/middleware/member_auth.go:379-382 | line breaks are skipped and nothing else |
| MemberAuth.CompactParts | plugin_/http-client/middleware/member_auth.go:373-377 | a token in compact form splits into its three parts and survives trimming |
| MemberAuth.TokenRoundTrip | plugin_/http-client/middleware/member_auth.go:362-399 | a token in compact form is read back exactly, payload and cookie type, from both headers |
| MemberAuth.BearerIff | plugin_/http-client/middleware/member_auth.go:362-399 | a bearer token is found iff the headers carry one with exactly three parts whose middle one decodes and can be read; it is that token, payload and type |
| MemberAuth.TokenWithBearer | plugin_/http-client/middleware/member_auth.go:166-169 | a bearer token is used with the type its stt stands for |
| MemberAuth.TokenWithoutBearer | plugin_/http-client/middleware/member_auth.go:170-186 | otherwise the token is that of the cookie for the configured type, and there is none iff that is missing |
| MemberAuth.SttRoundTrip | plugin_/http-client/middleware/member_auth.go:389-396 | 1 is admin, 2 is business, all else consumer; the numbers the member service is asked with are the same |
| MemberAuth.SessionResponse.ApplyPartner | plugin_/http-client/middleware/member_auth.go:210-222 | each field takes the partner's value iff that is not empty; nothing else changes |
| MemberAuth.SessionResponse.ApplyPartners | plugin_/http-client/middleware/member_auth.go:207-225 | each field independently ends with the last non-empty value among the matching entries, else the original |
| MemberAuth.OverrideIsUnique | plugin_/http-client/middleware/member_auth.go:207-225 | that description fixes the value |
| MemberAuth.AdjustedIsUnique | plugin_/http-client/middleware/member_auth.go:204-226 | the overridden session is determined by request and session |
| MemberAuth.HoldsAny | plugin_/http-client/middleware/member_auth.go:229-232 | found iff some listed privilege is configured |
| MemberAuth.PrivilegesAreCommaSeparated | plugin_/http-client/middleware/member_auth.go:228-232 | a session has a configured privilege iff the first of its comma-separated ones or one of the rest is configured |
| MemberAuth.Authorize | plugin_/http-client/middleware/member_auth.go:204-242 | with a session: forwards the overridden session with the token iff it has a configured privilege, else 401 |
| MemberAuth.Handle | plugin_/http-client/middleware/member_auth.go:161-243 | forwards exactly if there is a token, the reply is a 200 with code SUCCESS, and its session, overridden, has a configured privilege; 500 iff there is a token and the exchange breaks down; 401 otherwise |
| MemberAuth.DecisionIsUnique | plugin_/http-client/middleware/member_auth.go:161-243 | request, configuration and member service determine the decision |
| MandatoryHeaders.RequestIdLength | plugin_/http-client/middleware/http_header.go:191-202 | a request ID has at most 50 characters, for every client value |
| MandatoryHeaders.RequestIdOverHops | plugin_/http-client/middleware/http_header.go:191-202 | over any chain of hops it has exactly 50 from the second on, and its first 13 never change |
| MandatoryHeaders.GetClientIp | plugin_/http-client/middleware/http_header.go:361-388 | the loop over the sources finds the first good address or the last source's, then local address and comma are dealt with |
| MandatoryHeaders.PickIpIsGoodOrLast | plugin_/http-client/middleware/http_header.go:363-371 | a good address is found iff some source has one, otherwise the last source's value is left |
| BackendHeaders.NeverEmpty | plugin_/http-client/middleware/http_header.go:96-143 | whatever comes in, the backend gets one non-empty value each for request ID, store, language, currency, channel and content type, language and currency in upper case |
| BackendHeaders.SetRequestHeaders | plugin_/http-client/middleware/http_header.go:96-143 | in place: each header that is to have a value has it afterwards, each other one is as before |
| BackendHeaders.SetSessionHeaders | plugin_/http-client/middleware/http_header.go:318-350 | in place: each header the session has a value for has it afterwards (with the two old token headers of lines 150-152), each other one is as before |
| BackendHeaders.SetOldKeys | plugin_/http-client/middleware/http_header.go:353-359 | in place: each legacy name holds what the new name held before, a user agent already there stays, each other header is as before |
| BackendHeaders.SetMandatoryHeaders | plugin_/http-client/middleware/http_header.go:93-160 | a fresh header map in which every single header holds the session's value, else the request's, else a legacy copy or what came in |
| BackendHeaders.MandatoryIsUnique | plugin_/http-client/middleware/http_header.go:93-160 | those conditions, header by header, determine the whole map, whatever the order of the steps |
| HeaderContents.SessionIdentifiers | plugin_/http-client/middleware/http_header.go:323-337 | user name, business ID and role as in the session; if empty, "guest" or what came in |
| HeaderContents.SessionDetails | plugin_/http-client/middleware/http_header.go:331-345 | device, login media and loyalty level as in the session; if empty, the computed device or what came in |
| HeaderContents.SessionFlags | plugin_/http-client/middleware/http_header.go:319-347 | account ID and phone verification |
| HeaderContents.SessionTokens | plugin_/http-client/middleware/http_header.go:146-153 | the token, under both its names, and the session cookie |
| HeaderContents.DecimalIsRead | plugin_/http-client/middleware/http_header.go:320 | an account ID reads back as its number |
| HeaderContents.IdsSeen | plugin_/http-client/middleware/http_header.go:97-124 | request ID, service, store and identity |
| HeaderContents.LocaleSeen | plugin_/http-client/middleware/http_header.go:111-130 | language, currency, reseller and its type |
| HeaderContents.TransportSeen | plugin_/http-client/middleware/http_header.go:136-144 | tag, client address under both its names, channel and content type |
| HeaderContents.GuestSeen | plugin_/http-client/middleware/http_header.go:103-133 | without a session the backend sees a guest |
| HeaderContents.GuestKeeps | plugin_/http-client/middleware/http_header.go:146-153 | without a session the headers only a session sets are as they came |
| HeaderContents.LegacySeen | plugin_/http-client/middleware/http_header.go:353-359 | the legacy copies, and that no cookie goes on |
| HeaderContents.ValuesAre | plugin_/http-client/middleware/http_header.go:205-278 | each value comes from its header, else the legacy one, else a cookie, the query or a default |
| HeaderContents.LocaleIs | plugin_/http-client/middleware/http_header.go:214-230 | language and currency with their sources and defaults, in upper case |
| HeaderContents.ChannelIs | plugin_/http-client/middleware/http_header.go:280-308 | when each channel is given |
| HeaderContents.RequestIdIs | plugin_/http-client/middleware/http_header.go:180-203 | the UUID, behind at most 13 characters of a client ID other than "NONE" |
| HeaderContents.ClientIpIs | plugin_/http-client/middleware/http_header.go:361-388 | the first usable of the four sources in their order, else the local address for a local caller |
| HeaderContents.FirstAddressIs | plugin_/http-client/middleware/http_header.go:381-385 | up to the first comma, trimmed, unless that comes first |
| Text.TrimSpaceIs | plugin_/http-client/middleware/http_header.go:383 | trimming takes the blanks off both ends and nothing else |
| Text.LettersCorrespond | plugin_/http-client/middleware/http_header.go:214-230 | upper and lower case correspond letter by letter |
| HeaderContents.ChargedUserIsSeen | plugin_/http-client/middleware/redis_rate_limit.go:181-188 | the user that a limiter charges is the one the backend sees, letter case aside, iff there is no session without a user name |
| HeaderContents.OverrideIsSeen | plugin_/http-client/middleware/member_auth.go:204-226 | the business ID and role that the partner data fixes are those the backend sees, unless empty |
| HeaderFixpoint.OthersUntouched | plugin_/http-client/middleware/http_header.go:93-160 | headers outside the fixed list come out as they came in |
| HeaderFixpoint.FirstAddressTwice | plugin_/http-client/middleware/http_header.go:381-385 | cutting an address at the comma once is enough |
| HeaderFixpoint.ClientIpTwice | plugin_/http-client/middleware/http_header.go:361-388 | the client address is found again iff it is good or the untouched sources give it, too |
| HeaderFixpoint.SecondApplication | plugin_/http-client/middleware/http_header.go:93-160 | without a session, a second application changes nothing but the request ID iff the identity is not from the session cookie and the address is stable |
| HeaderFixpoint.CookieIdentityIsLost | plugin_/http-client/middleware/http_header.go:240-250 | for every request without device ID the second application sends an empty identity, where the first sent the session cookie |
| HeaderFixpoint.RequestWithSessionCookie | plugin_/http-client/middleware/http_header.go:240-250 | a request with nothing but a session cookie is one, and its identity is not stable |
| HeaderFixpoint.CutAddressIsReplaced | plugin_/http-client/middleware/http_header.go:361-388 | for every request whose address is not good once cut, while another source is, the second application sends that other address |
| HeaderFixpoint.RequestFromUnknown | plugin_/http-client/middleware/http_header.go:361-388 | "unknown,1" with another real address is such a request |
| ErrorHandler.ResponseWriter.AddValues | plugin_/http-client/middleware/error_handler.go:30-34 | the values are added after those already there |
| ErrorHandler.ResponseWriter.AddHeaders | plugin_/http-client/middleware/error_handler.go:30-34 | in whatever order the names come, the writer ends with its own and the buffered values |
| ErrorHandler.Serve | plugin_/http-client/middleware/error_handler.go:24-63 | status, headers and body on the writer after the handler |
| ErrorHandler.KeepsStatusAndFillsBody | plugin_/http-client/middleware/error_handler.go:24-63 | for every inner answer the status is kept and the body is not empty; a body that is there stays, except for a 404 that is to be replaced |
| ErrorHandler.AnswerIs | plugin_/http-client/middleware/error_handler.go:30-50 | the inner headers come after those on the writer; only a 404 that is to be replaced loses its length and its body |
| ErrorHandler.JsonMessages | plugin_/http-client/middleware/error_handler.go:89-128 | the code and message of each status that has one |
| ErrorHandler.PlainMessages | plugin_/http-client/middleware/error_handler.go:77-87 | its plain text |
| ErrorHandler.WrappingTwice | plugin_/http-client/middleware/error_handler.go:24-63 | at one server time wrapping twice equals wrapping once, whatever headers are on the outer writer |
| ErrorHandler.JsonOnlyWithoutContentType | plugin_/http-client/middleware/error_handler.go:52-63 | an empty answer gets the JSON body iff it has no usable content type, and the plain one iff it has |
| ErrorHandler.EmptyJsonGetsPlainText | plugin_/http-client/middleware/error_handler.go:52-63 | an empty answer with the JSON content type gets plain text |
| ErrorHandler.InternalErrorIffNotListed | plugin_/http-client/middleware/error_handler.go:77-128 | an empty answer is given the body of an internal error iff its status is none of 400, 401, 429, 502, 503, 504 |
| ErrorHandler.EmptyOkSaysInternalError | plugin_/http-client/middleware/error_handler.go:77-128 | so is an empty answer with status 200 |

## Left out

- YamlNode.RecursiveMerge: that the source is untouched is stated for distinct keys only; with duplicate keys the resulting tree is still proved, and `YamlAliasing.MergeIntoEmpty` shows that the source can change.
- YamlNode.FindKey: the recursive call stands after the inner loop instead of inside it, just before the loop is left; nothing happens in between.
- MiddlewareRegistry.Registry.BuildClient: calling an unregistered name panics in the program, which is a precondition here.
- MemberAuth.Handle: the exchange with the member service is reduced to a reply or none; its headers, query, timeout and cancellation are not part of this model.
- RateKey.ColonFreeKeysAreInjective: injectivity without the condition on colons fails, as `RateKey.ColonsCollide` shows; `RateKey.SameKeyIff` is the exact statement.
- ErrorHandler.WrappingTwice: says nothing of two handlers with different configurations, or of a clock that moves on between them.
- YAML text, tags, styles, comments and anchors; files, the environment and process exits around the merge.
- The arithmetic of the rate limiting algorithm, Redis, and the HTTP adapter around the limiter: the store's answers are arbitrary, and a request is forwarded iff the limiter returns neither an error nor a limit; the rate limit headers are a parameter.
- JSON encoding and decoding, UUIDs, user agent parsing, the local interface, splitting host and port, and the media type parser are parameters.
- Header names are canonical already; two spellings of one name do not occur in the model. Letter case and white space are ASCII only.
- The HTTP transport, redirects, timeouts and errors while closing a body; the backend's answer and its three failures are a parameter.
- Panics on configurations of the wrong type, and logging.
- The HTTP caller and client, configuration defaults, the static response middleware and the stub middlewares: defaults and lookups with only easy facts.
