# A model of the Hawk API server

Hawk's API server publishes the cluster's CIB to browsers. It keeps one copy of the CIB and lets clients
long-poll for new versions, answers JSON queries about single objects, compresses its responses and
proxies the rest to a backend. This project models the parts of it that keep state or run concurrently, and
proves what they guarantee in every run.

| file | models |
|---|---|
| `CibProtocol.dfy` | `AsyncCib`: publishers, requests, the mutex and the channel of reply channels, step by step |
| `CibGuarantees.dfy` | what that protocol guarantees with any number of overlapping publishers, and what it does not |
| `CibFetcher.dfy` | the fetcher loop and the subscription callback on top of it |
| `GzipWriter.dfy` | `GzipResponseWriter`, the buffering response writer |
| `AcceptEncoding.dfy` | the Accept-Encoding parser |
| `ProxyUrl.dfy` | the URL director of the reverse proxy |
| `TargetUrl.dfy` | the printed form of a proxy target, on which the director for unix sockets relies |
| `ProxyHeaders.dfy` | hop-by-hop removal and header merge |
| `ProxyTrailers.dfy` | trailers: announcing, storing, and whether the response is chunked so that it can carry them |
| `WebsocketTunnel.dfy` | the replay buffer and the two copying directions of a websocket |
| `LatencyWriter.dfy` | the copier and the flush loop of `copyResponse` |
| `CibIndex.dfy` | the id index of the API handlers and the JSON selection |
| `ApiRoutes.dfy` | the path patterns of `serveAPI` and the path splitting behind them |
| `ApiAnswers.dfy` | index and patterns together: from the request path to the JSON answer |
| `RouteTable.dfy` | the routing loop and the proxy cache |
| `OffsetContext.dfy` | line and column of a configuration error |
| `Strings.dfy`, `Common.dfy` | the part of Go's `strings` package that the others use, and shared definitions |

Concurrent parts are step systems: a state, actions of single goroutines, a rendezvous as one action of both
sides, and theorems over every sequence of enabled actions. Objects that one goroutine updates are classes
whose methods are proved against functions on values; the theorems are about those functions.

Go-pacemaker is an environment of which three things are assumed: a failed `Subscribe` gives no callbacks,
callbacks run one at a time, and no update follows a lost-connection event until the next successful
`Subscribe`. A loss may be reported more than once. `http.DetectContentType`, `url.Parse` and the unusual forms of `strconv.ParseFloat` are
arbitrary functions passed as parameters.

## Results that a reader of the code may not expect

- With overlapping publishers a `/monitor` request can be answered with an older version than it had read: exactly
  while a publisher is in its loop although a later document has been stored (`StaleAnswerExactly`,
  `OverlapCanGoBack`). With the assumptions above there is one publisher at a time and it cannot
  (`AnswersAreFresh`).
- A request that times out while no publication is running has the newest version if and only if nothing was stored
  between its read and its offer (`TimedOutCurrentExactly`); otherwise it is behind (`TimedOutCanBeStale`).
- A lost connection is noticed only if it is reported on the current subscription before the fetcher has left it
  (`LossHeardExactly`). Otherwise the callback is blocked for good and no update is ever published again
  (`BlockedForGood`); once the fetcher has subscribed again, nothing at all is (`FeedIsDead`). One
  loss that is reported twice is enough (`RepeatedLossBlocks`).
- A body of at least 512 bytes that is flushed before it reaches 512 bytes goes out compressed but not labelled
  as such. As long as the handler sets no encoding of its own and the connection holds, that is the only way the client
  gets something else than what was written (`BodyPreservedExactly`).
- A flush sends 200 at once, whatever status was recorded. So the client sees the handler's status if and only if nothing
  was flushed before it was passed on, or it is 200 anyway (`StatusKeptExactly`). The proxy flushes right after
  `WriteHeader` if the backend announces trailers, so behind the gzip wrapper such a response is always a 200
  (`FlushHidesStatus`).
- A parameter after the quality resets it: `gzip;q=0;x` accepts gzip (`TrailingParameterResets`).
- The lookup in `proxyForRoute` never finds anything, because its key is the address of a variable that each
  request has for itself (`CacheNeverHits`).
- The handlers' comments speak of paths like `api/v1/nodes`, but the patterns of `serveAPI` demand
  `configuration/` after the route path and are not anchored at their start. A request gets the collection or the item
  that it names only if the route path has a single segment and the path begins with what the pattern matched, or
  if its id happens to be the fourth segment (`GetsWhatItNamesExactly`). So under the default route `/api/v1` the whole
  collection is never returned, and a request without a detour looks up the name of its own collection
  (`DefaultRouteLooksUpCollection`); a detour such as `/api/x/api/configuration/nodes/n1` misleads also behind `/api`
  (`DetoursMislead`). With a route path made of slashes only, the handler indexes out of range
  (`SegmentsInRangeExactly`). The model follows the code.
- A syntax error right after a newline has no column, and the caret line of the report cannot be built
  (`CaretPlacedExactly`).
- Only the first Connection line of a response is honoured (`SecondConnectionLineIgnored`), so the fields that
  section 14.10 of RFC 2616 makes hop-by-hop are removed exactly if the first line or the fixed list names those
  that are present (`NamedFieldsRemovedExactly`).
- When the client ends a websocket, what the backend had still to deliver is cut off, after any length, also inside
  a chunk that is being written (`CutLengthsExactly`, `CutAnywhere`).
- A unix-socket target keeps request paths exactly if it has no path at all, or nothing but a path that needs no
  escaping and does not end in a slash (`UnixPathIdentityExactly`). A target such as `unix:x` panics (`SocketPrefixIs`).
- Trailers that the backend has not announced are lost if nothing else makes the response chunked: the body fits
  net/http's buffer and ends before the first tick of the flush loop (`UnannouncedArriveExactly`,
  `ShortBodyLosesTrailer`). If there are announced ones as well, chunking is forced (`AnnouncedForcesChunking`), but an
  announced trailer that is also a header field is delivered with the header's values appended
  (`TrailersDeliveredExactly`).

## Model

| member | source | states |
|---|---|---|
| CibProtocol.EveryRun | main.go:80-120 | in every run of any number of overlapping publishers and requests: mutual exclusion, consistent stored document, publisher and waiter paired one to one, replies and reads logged correctly, owed requests never forgotten |
| CibGuarantees.MutualExclusion | main.go:90-109 | at most one goroutine is between `Lock` and `Unlock` |
| CibGuarantees.HolderMoves | main.go:90-109 | the holder of the mutex always has a step |
| CibGuarantees.HolderUnlocks | main.go:90-109 | each step of the holder brings the unlock nearer, no other step delays it, and nobody else gets the mutex before |
| CibGuarantees.NobodyStuck | main.go:80-119 | whoever does not wait for the mutex has a step of its own, or of the partner that it waits for; an offering request can always time out |
| CibGuarantees.RequestKept | main.go:80-100 | a request keeps its kind, its epoch and what it has read in every continuation |
| CibGuarantees.GetCompletes | main.go:90-94 | with the lock free, a `Get` returns the stored text by its own steps and changes nothing else |
| CibGuarantees.MonitorDecides | main.go:260-272 | with the lock free, a `/monitor` request gets the stored version at once if it is news, and offers its channel otherwise |
| CibGuarantees.PublicationCompletes | main.go:102-120 | a publication that runs alone stores its document, answers every offering request with its version, leaves the others alone and ends |
| CibGuarantees.ConsistentWhenFree | main.go:90-109 | with the lock free, text and version are both initial or both of the last stored document |
| CibGuarantees.ReadsNeverGoBack | main.go:90-100 | successive `Get` and `Version` reads never go back in store order, and each returns the document of its position |
| CibGuarantees.RequestsAnswered | main.go:260-274 | a request answers at once exactly if there is a version that differs from the client's; otherwise it waits; without a reply it returns what it read |
| CibGuarantees.AtMostOneReply | main.go:80-88 | a handed-over reply channel gets exactly the one reply that finishes its request; a timed-out or immediate request gets none |
| CibGuarantees.ReplyAlwaysEnabled | main.go:111-119 | a publisher that holds a reply channel can always deliver, and no other publisher holds the same one |
| CibGuarantees.DrainServesAll | main.go:110-119 | a publication ends only by draining, and then every request that was offering when its loop began is answered, timed out, or held by another publisher that can answer it |
| CibGuarantees.LoopNeverBlocked | main.go:111-119 | a publisher in its drain loop always has an enabled step |
| CibGuarantees.RankDecreases | main.go:111-119 | without new arrivals no step increases the work left, and each own step decreases it |
| CibGuarantees.DrainBounded | main.go:111-119 | hence the loop makes at most twice the number of offering requests, plus one, more steps, in every interleaving |
| CibGuarantees.DoneIsFinal | main.go:80-88 | the answer of a finished request is final in every continuation |
| CibGuarantees.TimedOutCurrentExactly | main.go:80-119 | a request that times out while no publication is running has the newest version if and only if nothing was stored between its read and its offer |
| CibGuarantees.StoredSinceOffer | main.go:110-119 | while publications are running, each document stored since the offer belongs to one of them, which cannot end while the request is offering |
| CibGuarantees.StaleAnswerExactly | main.go:102-120 | with the lock free, a newcomer can be answered with an older version than it reads, without a new store, if and only if some publisher in its loop has been overtaken |
| CibGuarantees.OverlapCanGoBack | main.go:102-120 | two overlapping publishers can answer with a version older than the one read |
| CibGuarantees.TimedOutCanBeStale | main.go:261-272 | the failing side of that condition: a publication between the read and the offer is missed by a request that then times out |
| CibFetcher.EveryTrace | main.go:36-78 | in every run of fetcher, callback and requests, all invariants hold and at most one publication is active |
| CibFetcher.LoopOrderExactly | main.go:40-74 | the next event of the fetcher is exactly one that follows its last one: open until it succeeds, query, publish, subscribe, wait, and over again |
| CibFetcher.QueriesAlternate | main.go:47-72 | between any two queries there is an attempt to subscribe |
| CibFetcher.CallbackOrderExactly | main.go:57-64 | a callback ends with its publication or with the receipt of its loss, and only then another one comes; updates come exactly between a subscription and the next loss |
| CibFetcher.EventPublishes | main.go:48-59 | a successful query and an update start the publication of their document, and nothing else does |
| CibFetcher.SubscriptionFollows | main.go:53-71 | after a published query a subscription can succeed, and then updates come through unless the callback is still blocked |
| CibFetcher.FeedWorks | main.go:40-74 | a run in which documents come from a query, an update and, after a received loss, a second query |
| CibFetcher.OnePublisherAtATime | main.go:40-74 | the fetcher and the callback never publish at the same time |
| CibFetcher.AnswersAreFresh | main.go:102-120 | each `/monitor` answer is what the request read, or a stored version no older than that |
| CibFetcher.DrainFinishesAll | main.go:110-119 | when a publication ends, every request that was offering when its draining began has timed out or got exactly the published version |
| CibFetcher.AtMostOneMissed | main.go:102-120 | at most one document was stored since a request began to offer, and only while its publication is running |
| CibFetcher.LossHeardExactly | main.go:56-71 | a pending loss can be received in some continuation if and only if it belongs to the current subscription and the fetcher is subscribed to it or waiting for it; then at once or after the fetcher's next step |
| CibFetcher.BlockedForGood | main.go:57-64 | otherwise, in every continuation, the callback stays blocked and no update is published |
| CibFetcher.FeedIsDead | main.go:56-71 | if the fetcher has subscribed again by then, text, version and history never change again |
| CibFetcher.RepeatedLossBlocks | main.go:57-71 | a run with one loss that is reported twice reaches such a state |
| GzipWriter.GzipResponseWriter.constructor | gziphandler.go:147-150 | a fresh wrapper has recorded nothing |
| GzipWriter.GzipResponseWriter.Write | gziphandler.go:39-62 | refines the step function for writes, with the accepted length and the error |
| GzipWriter.GzipResponseWriter.StartGzip | gziphandler.go:64-92 | refines the step function that starts the compressor |
| GzipWriter.GzipResponseWriter.WriteHeader | gziphandler.go:94-97 | records the code and nothing else |
| GzipWriter.GzipResponseWriter.Close | gziphandler.go:100-117 | refines the step function for closing, with the error |
| GzipWriter.GzipResponseWriter.Flush | gziphandler.go:122-129 | commits a header if none was sent |
| GzipWriter.Undecided | gziphandler.go:50-61 | until the decision nothing but an early flush reaches the wire |
| GzipWriter.Decided | gziphandler.go:45-48 | after the decision the wire holds one open stream of everything written, for every continuation |
| GzipWriter.OneStatusCode | gziphandler.go:70-72 | in every run at most one status code is passed on, the last one recorded before the decision |
| GzipWriter.StatusKeptExactly | gziphandler.go:70-129 | the client sees the status recorded before the decision, or by the end without one, if and only if nothing was flushed by then or that status is 200 |
| GzipWriter.FlushHidesStatus | gziphandler.go:94-129 | the failing side: a recorded code followed by a flush goes out as 200 |
| GzipWriter.PlainResponse | gziphandler.go:100-114 | without a decision the body goes out verbatim in one piece with the handler's header |
| GzipWriter.CompressedResponse | gziphandler.go:64-92 | with a decision the body goes out as one complete stream of all bytes |
| GzipWriter.CompressedHeader | gziphandler.go:65-69 | compression without an early flush announces gzip, drops the length and keeps all other fields |
| GzipWriter.SniffedTypeSent | gziphandler.go:40-43 | a handler that sets no content type gets the one sniffed from its first write, compressed or not |
| GzipWriter.ThresholdExactly | gziphandler.go:53-60 | the decision falls with the write that reaches 512 bytes, and only then |
| GzipWriter.BodyPreservedExactly | gziphandler.go:39-117 | gzip is used exactly from 512 bytes on, and the client decodes exactly the bytes written if and only if a long body was not flushed early |
| GzipWriter.EarlyFlushCorrupts | gziphandler.go:122-129 | a flush followed by a long write is not decodable |
| GzipWriter.ChunkingIrrelevant | gziphandler.go:39-62 | two handlers that write the same bytes in different chunks get the same decoded body and encoding |
| GzipWriter.PresetVerbatim | gziphandler.go:55-55 | an encoding that the handler sets before its first write is kept and the body goes out verbatim |
| AcceptEncoding.ParseCoding | gziphandler.go:200-223 | the coding is the first part, the quality is fixed by the final part, the error by the last quality part or an empty coding |
| AcceptEncoding.ParseEncodings | gziphandler.go:174-195 | the map holds the quality of the last error-free element of each coding and nothing else; an error exactly if some element fails |
| AcceptEncoding.AcceptsGzip | gziphandler.go:162-165 | gzip is accepted exactly when its last error-free element has positive quality |
| AcceptEncoding.GzipInAnyCase | gziphandler.go:206-206 | a coding is lower-cased to "gzip" exactly if it spells it, letter by letter, in any case |
| AcceptEncoding.GzipAcceptedExactly | gziphandler.go:162-195 | for every generated header, gzip is accepted if and only if the last item that spells it has no quality or one above 0 |
| AcceptEncoding.LowerByAlphabet | gziphandler.go:206-206 | capitals become the small letter of the same place in the alphabet, every other ASCII character stays |
| AcceptEncoding.SpacesInFull | gziphandler.go:202-202 | the characters that are trimmed |
| AcceptEncoding.PlainExamples | gziphandler.go:200-216 | two elements in full, "gzip;q=0" and " gzip ; q=0.5" |
| AcceptEncoding.FinalWeightDecides | gziphandler.go:207-214 | a final quality part decides the quality, limited to the range from 0 to 1, and the error |
| AcceptEncoding.QValueParses | gziphandler.go:207-214 | every qvalue of section 3.9 of RFC 2616 parses to its thousandths |
| AcceptEncoding.NegativeQuality | gziphandler.go:210-214 | a negative quality parses to its value and counts as 0 |
| AcceptEncoding.PositiveQuality | gziphandler.go:208-208 | a plus sign changes nothing |
| AcceptEncoding.NoPlainDecimal | gziphandler.go:208-208 | a text with two points or without digits is left to the number parser |
| AcceptEncoding.FormattedElements | gziphandler.go:178-186 | every generated header splits back into its elements, whatever the padding and case |
| AcceptEncoding.RoundTrip | gziphandler.go:174-195 | parsing a generated header gives back exactly the map it was generated from, without error |
| AcceptEncoding.EmptyHeaderFails | gziphandler.go:218-220 | the empty header is one element without a coding |
| AcceptEncoding.TrailingParameterResets | gziphandler.go:201-203 | a later parameter resets the quality to 1 and keeps coding and error |
| ProxyUrl.Request.Direct | reverseproxy.go:106-178 | refines the function from request URL to directed URL, and fails exactly where slicing the printed target panics |
| ProxyUrl.DirectedParts | reverseproxy.go:106-171 | every part of the directed URL by the target and the request alone: scheme, host, path, escaped path and opaque part, for any target |
| ProxyUrl.OrdinaryAlwaysDirected | reverseproxy.go:112-115 | an ordinary target never panics |
| ProxyUrl.JoinSeam | reverseproxy.go:86-96 | joining puts exactly one slash at the seam, and joining nothing changes nothing |
| ProxyUrl.WithoutRemoved | reverseproxy.go:98-103 | the documented use of `without` with the target "/" |
| TargetUrl.PrintsPathExactly | reverseproxy.go:163-163 | what is printed after the scheme is the bare path if and only if there is no user, host, query or fragment and the path needs no escaping |
| TargetUrl.NoPathNoSlash | reverseproxy.go:163-163 | without a path it never starts with a slash |
| TargetUrl.PlainPathExactly | reverseproxy.go:163-163 | the printed path is the path itself exactly if nothing in it needs escaping or its escaped form equals it |
| TargetUrl.PlainCharacters | reverseproxy.go:163-163 | the characters of path, user, host and fragment that are printed as they are, besides letters and digits |
| TargetUrl.LettersAndDigitsPlain | reverseproxy.go:163-163 | letters and digits are printed as they are everywhere |
| TargetUrl.EscapeRoundTrip | reverseproxy.go:163-163 | unescaping undoes escaping, for every path |
| TargetUrl.PrintedInFull | reverseproxy.go:163-163 | what is printed, part by part, with the separators between them |
| TargetUrl.OpaqueInFull | reverseproxy.go:163-163 | an opaque part takes the place of user, host and path |
| TargetUrl.EscapeEncodes | reverseproxy.go:163-163 | the escaped form of a path is valid and encodes it |
| TargetUrl.PlainEncodesItself | reverseproxy.go:163-163 | a text without percent signs encodes exactly itself, if its characters are valid |
| ProxyUrl.SocketPrefixIs | reverseproxy.go:161-163 | what is trimmed for a unix target is all that is printed after the scheme; for an opaque target it lacks the first two characters, and a shorter one panics |
| ProxyUrl.CancelsExactly | reverseproxy.go:153-164 | joining with a base and trimming a prefix keeps every path if and only if the two cancel each other |
| ProxyUrl.UnixPathIdentityExactly | reverseproxy.go:153-164 | every request path passes a unix-socket target unchanged, a missing leading slash apart, if and only if the target has no path, or nothing but a path without trailing slash that needs no escaping; also for opaque targets |
| ProxyUrl.UnixUrlKept | reverseproxy.go:107-171 | for such targets without opaque part, path, escaped path and opaque part of the request are kept |
| ProxyUrl.TrailingSlashSwallows | reverseproxy.go:153-164 | a socket path with a trailing slash swallows the leading slash of every request path |
| ProxyUrl.QueriesConcatenate | reverseproxy.go:173-177 | the merged parameters are the target's followed by the request's |
| ProxyHeaders.HopIsCanonical | reverseproxy.go:437-449 | the listed names are canonical, so deleting them deletes these keys |
| ProxyHeaders.HopFieldsInFull | reverseproxy.go:243-255 | the fixed list by its names: exactly these fields and those of the first Connection line are removed |
| ProxyHeaders.CanonicalWords | reverseproxy.go:248-248 | a canonical name has a capital at the start of each word, small letters elsewhere, and is the same but for case |
| ProxyHeaders.CanonicalIgnoresCase | reverseproxy.go:248-248 | names that differ in case only have the same canonical form |
| ProxyHeaders.ListedFieldsRemoved | reverseproxy.go:245-251 | a first Connection line that lists names, with any case and padding, removes the fields with these names |
| ProxyHeaders.RemoveConnectionNames | reverseproxy.go:245-251 | deletes exactly the fields named in the first Connection line |
| ProxyHeaders.RemoveHopByHop | reverseproxy.go:243-255 | equals the closed form of both deletions |
| ProxyHeaders.MergeStep | reverseproxy.go:396-413 | one turn of the copy loop extends the closed-form merge by any one key |
| ProxyHeaders.CopyHeader | reverseproxy.go:395-414 | equals the closed-form merge for every iteration order |
| ProxyHeaders.ForwardHeader | reverseproxy.go:243-324 | removal and merge together equal one closed-form map |
| ProxyHeaders.ForwardedFields | reverseproxy.go:386-414 | field by field: hop-by-hop fields vanish, predefined ones are kept, Server accumulates, others are replaced |
| ProxyHeaders.NamedFieldsRemovedExactly | reverseproxy.go:243-255 | all fields named in any Connection line are removed if and only if those that are present are named in the first line or in the fixed list |
| ProxyHeaders.OneLineSuffices | reverseproxy.go:245-251 | with at most one Connection line they are always removed |
| ProxyHeaders.NamedFieldsWithheldExactly | reverseproxy.go:243-324 | the same for what the client gets: no named field, if and only if those with values are named in the first line or in the fixed list |
| ProxyHeaders.SecondConnectionLineIgnored | reverseproxy.go:245-245 | the failing side: a field named only in a second Connection line is forwarded |
| ProxyHeaders.SuchLinesExist | reverseproxy.go:245-251 | such lines exist: "Upgrade" followed by "X-Hop" |
| ProxyTrailers.AnnounceTrailers | reverseproxy.go:332-339 | the Trailer field lists each announced key exactly once |
| ProxyTrailers.LengthTest | reverseproxy.go:356-361 | if keys are only added, the lengths differ exactly when unannounced keys arrived |
| ProxyTrailers.ShallowCopyTrailers | reverseproxy.go:423-433 | every trailer is stored under its plain or prefixed name, and nothing else changes |
| ProxyTrailers.StoredNamesDiffer | reverseproxy.go:426-431 | no two trailers are stored under the same name |
| ProxyTrailers.StoredNamesInFull | reverseproxy.go:424-431 | the names under which trailers are stored, with and without the prefix |
| ProxyTrailers.ServeTrailers | reverseproxy.go:326-362 | from the announcement to the end of the response: the header taken, whether the response is chunked, and the trailers stored |
| ProxyTrailers.AnnouncedForcesChunking | reverseproxy.go:343-350 | with an announced trailer the response is chunked exactly if it can be |
| ProxyTrailers.NoOtherTrailerField | reverseproxy.go:319-324 | a Trailer field comes from the announcement only |
| ProxyTrailers.TrailersDeliveredExactly | reverseproxy.go:326-362 | the client gets exactly the backend's trailers if and only if the response is chunked, and, when unannounced ones arrived, no announced one is also a header field with values; an unchunked response must have no trailer values |
| ProxyTrailers.AnnouncedArriveExactly | reverseproxy.go:343-362 | trailers that are all announced arrive if and only if the response can be chunked or they have no values |
| ProxyTrailers.UnannouncedArriveExactly | reverseproxy.go:343-362 | trailers without any announcement arrive if and only if the response can be chunked and is, by a tick, a long body or a gzip wrapper that has held back the whole body |
| ProxyTrailers.UnchunkableGetsNone | reverseproxy.go:343-350 | an HTTP/1.0 client, a response without a body, or one with a Content-Length gets no trailers |
| ProxyTrailers.ShortBodyLosesTrailer | reverseproxy.go:343-351 | the failing side: one unannounced trailer behind a short body is lost |
| WebsocketTunnel.HijackedConn.Read | reverseproxy.go:458-462 | the replay buffer grows by exactly what was read, so replay and rest stay the whole stream; refines the handshake step of the tunnel |
| WebsocketTunnel.PooledIoCopy | reverseproxy.go:38-47 | copying moves everything that is left, in order; refines the steps of its direction of the tunnel |
| WebsocketTunnel.EveryRun | reverseproxy.go:261-306 | in every interleaving every byte of both streams is in exactly one place, in order |
| WebsocketTunnel.NothingLost | reverseproxy.go:274-306 | nothing is lost, duplicated or reordered in either direction |
| WebsocketTunnel.NoDeadlock | reverseproxy.go:261-306 | before the close each direction always has a step, until the backend's is done |
| WebsocketTunnel.AllDelivered | reverseproxy.go:261-306 | for all streams, whatever the transport and the server's buffer had read, some run delivers everything in both directions |
| WebsocketTunnel.RunsEnd | reverseproxy.go:261-306 | every run makes at most twice as many steps as both streams have bytes, plus five |
| WebsocketTunnel.CloseCutsExactly | reverseproxy.go:272-306 | at the end of the client's stream the client has the whole backend stream exactly if nothing was left of it |
| WebsocketTunnel.CutLengthsExactly | reverseproxy.go:284-306 | once the tunnel is open it can end with exactly these lengths delivered: every one from the present one up to the whole stream |
| WebsocketTunnel.CutAnywhere | reverseproxy.go:261-306 | for every stream and length some run ends with exactly that beginning delivered, although the client's stream came through |
| LatencyWriter.EveryRun | reverseproxy.go:368-382 | the invariant of copier, flush loop, mutex and bytes in every interleaving |
| LatencyWriter.NeverOverlap | reverseproxy.go:622-644 | `Write` and `Flush` never overlap |
| LatencyWriter.FlushCovers | reverseproxy.go:639-642 | a flush covers everything written by then, and touches nothing else |
| LatencyWriter.TickFlushes | reverseproxy.go:638-642 | a tick that finds the lock free leads to such a flush and back to the select |
| LatencyWriter.CopyTurn | reverseproxy.go:38-47 | one turn of the copy loop, with a full or a short write |
| LatencyWriter.CopyCompletes | reverseproxy.go:368-382 | every source can be copied in full, in chunks of any size, and the copy returns |
| LatencyWriter.CopyAdvances | reverseproxy.go:368-382 | each step of the copier brings it nearer to its return, and no flush delays it |
| LatencyWriter.ReadFailureEnds | reverseproxy.go:38-47 | a failing read ends the copy |
| LatencyWriter.HolderMoves | reverseproxy.go:622-643 | whoever holds the mutex has a step |
| LatencyWriter.BytesInOrder | reverseproxy.go:622-626 | the destination holds a beginning of the source, and all of it after a copy without failure |
| LatencyWriter.NothingAfterStop | reverseproxy.go:628-646 | after `stop` has returned no step, in particular no flush, is possible |
| LatencyWriter.NoDeadlock | reverseproxy.go:628-646 | no state before the return is stuck |
| LatencyWriter.StopGetsThrough | reverseproxy.go:628-646 | a waiting `stop` meets the flush loop after at most three steps of the loop |
| CibIndex.IndexList | api_resources.go:34-46 | each loop extends the agreement of the index with the last-match scan |
| CibIndex.ScanFinds | api_resources.go:48-55 | the scan fails exactly when no list holds the id, and what it finds has that id |
| CibIndex.SelectResource | api_common.go:21-37 | the encoder indexes in range and selects the element with the id |
| CibIndex.SelectConstraint | api_common.go:38-51 | the same for constraints |
| CibIndex.OnlyElement | api_common.go:21-51 | with unique ids the selected element is the only one with its id |
| CibIndex.ResourceFound | api_resources.go:34-57 | a lookup answers with the last master, else clone, else group, else primitive with the id, and with "No route" exactly if there is none |
| CibIndex.ConstraintFound | api_constraints.go:34-55 | the same for orders, colocations and locations |
| CibIndex.NodeFound | api_nodes.go:34-50 | the first node with that id or name, or "No route" if there is none |
| CibIndex.HandleApiCluster | api_cluster.go:11-32 | the cluster's configuration, whatever the path |
| CibIndex.HandleApiResources | api_resources.go:13-65 | three segments of the path give the section, more give the last-match element of the id or "No route", fewer crash; an undecodable CIB gives nothing |
| CibIndex.HandleApiConstraints | api_constraints.go:13-63 | the same over the three constraint lists |
| CibIndex.HandleApiNodes | api_nodes.go:13-57 | the same with the first node whose name or id matches, or "No route" exactly if none does |
| ApiRoutes.AcceptedSegments | api_nodes.go:25-33 | the segments of every accepted path |
| ApiRoutes.PatternsDisjoint | main.go:205-221 | no path is accepted by two collection patterns |
| ApiRoutes.PatternsInFull | main.go:205-218 | the four patterns spelled out: what they end with, and which of them allow an id |
| ApiRoutes.DispatchExactly | main.go:198-231 | 401 exactly without authorization; a collection's handler exactly for authorized GET requests of its own pattern, whatever the order; the raw CIB by its prefix; an error for the rest |
| ApiRoutes.SegmentsInRangeExactly | api_resources.go:26-32 | every accepted path has at least three segments if and only if the route path has a non-empty one |
| ApiRoutes.TrailingSlashIrrelevant | main.go:206-218 | a trailing slash changes neither acceptance nor segments |
| ApiRoutes.SelectionOfPath | api_constraints.go:26-32 | for every accepted path the segments of the route and of what precedes it decide what is looked up |
| ApiRoutes.SegmentsBefore | main.go:153-206 | in a path that starts with the route path, what precedes the match adds its slashes to the segments of the route |
| ApiRoutes.GetsWhatItNamesExactly | main.go:151-221 | a routed and accepted request gets what it names if and only if the route has one segment and nothing with a slash precedes the match, or the id coincides with the fourth segment |
| ApiRoutes.NothingPrecedes | main.go:153-153 | for a path that starts with a slash that means nothing at all |
| ApiRoutes.DefaultRouteLooksUpCollection | main.go:321-326 | under "/api/v1" every routed and accepted request looks up a key: without a detour the collection name; it is the named item only by coincidence |
| ApiRoutes.DetoursMislead | main.go:205-221 | the failing side: two accepted paths whose lookups are not what they name |
| ApiAnswers.ServeCollection | main.go:151-231 | every routed and accepted request gets the answer of the selection behind its route, and what it names where that is the selection; it never crashes if the route has a segment |
| RouteTable.EveryRun | main.go:151-196 | the invariant of requests and cache in every interleaving |
| RouteTable.ProxyMatchesRoute | main.go:178-196 | every cached proxy was built from the target of the route it is keyed by; a request is served by the proxy of the first eligible route, and unmatched only if there is none |
| RouteTable.FirstTakerDecides | main.go:151-176 | the first route that takes a request decides its outcome: handled, proxied to its target, or reported if the target does not parse; unmatched exactly if no route takes it |
| RouteTable.RefusalsJustified | main.go:153-172 | a handler is passed over only if it was tried and refused, and `serveMonitor` refuses exactly the paths that are not its own |
| RouteTable.RequestAdvances | main.go:151-196 | every request has a step until it has ended, and each of its steps brings it nearer to that |
| RouteTable.ArrivalStarts | main.go:151-152 | a request can arrive at any time and starts at the first route |
| RouteTable.KeyNeverChanges | main.go:298-307 | once cached, neither the keyed route nor the proxy changes in any continuation |
| RouteTable.CacheNeverHits | main.go:152-183 | a lookup never finds a proxy, and the cache holds one for each proxied request |
| OffsetContext.ContextIsLine | util.go:26-38 | for every offset the context is the line-th line of the text, and start and column locate the byte before the offset |
| OffsetContext.CaretPlacedExactly | util.go:46-49 | the column is usable exactly if the byte before the offset exists and is no newline |
| OffsetContext.NewlineHasNoCaret | util.go:46-49 | the failing side: a string cut by a newline, and an empty file, have no column |
| OffsetContext.ContextInjective | util.go:31-37 | line and column determine the offset |

## Left out

- Authentication (`checkHawkAuthMethods`, `checkBasicAuth`) runs external processes; `ApiRoutes.Dispatch` takes its result as a parameter.
- TLS dialing, transports, `redirect.go`, `stripPort`, `requestIsWebsocket`, `cloneTLSConfig`: thin wrappers over the Go library.
- XML decoding, JSON encoding and the full structure tree of api_structs.go: only ids, lists, `URLType` and `URLIndex` are kept, and the sections are assumed to be present.
- `serveFile`, logging, flags, configuration reading and `main`.
- Exactly one response per request: API handlers return false after writing an error and routing goes on.
- The Go regexp engine: the four patterns are written as languages, for route paths of letters, digits and slashes.
- The compression algorithm and content sniffing: a compressed stream carries its plain text and reaches the wire write by write; the compressor's own buffering, the `Vary` field and `Hijack` are not modelled.
- Float64 rounding: numbers are reals. Plain decimals of up to 300 digits on either side of the point are parsed; all other texts, including NaN and infinities, are left to an arbitrary function with finite results. Characters whose lower case is not ASCII are not folded.
- `AsyncCib`, the routing loop with its cache, `copyResponse` and the websocket tunnel as a whole are step systems on values, because their properties are about interleavings: they do not capture aliasing or weakly ordered memory, and each step is atomic. Timers may fire at any time, and no fairness is assumed.
- The channel `notifier` exists from the start; requests before `Start` are not modelled.
- An underlying response writer that is not a flusher, trailer keys that net/http refuses to declare, a Content-Length that it rejects, HTTP/2, and a Transfer-Encoding that was set before the proxy runs. Behind the gzip wrapper, trailers are modelled without the header changes that compression makes.
- I/O errors in the websocket tunnel, a second dial of its transport, and reads of the transport after the round trip.
- `url.Parse`: targets are given by their fields. Printing follows net/url as of Go 1.9; later versions print a target without host and path differently.
- Sharing of value slices between header maps.
- AcceptEncoding.ParseEncodings: reports whether there was an error, not its text, because callers ignore the text.
- GzipWriter.GzipResponseWriter.Flush: does not model the flush of the compressor itself, because a compressed stream reaches the wire write by write.
- WebsocketTunnel.PooledIoCopy: does not model read and write errors, which end the copy early; a cut stream is covered by the steps that close the tunnel.
- CibIndex.HandleApiResources: the response writer and its headers are reduced to the answer, because the rest is plumbing; likewise for the other two handlers.
