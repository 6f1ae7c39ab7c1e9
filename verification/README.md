# Verified models of the beauty HTTP library

beauty is a C++ HTTP server and client over Boost.Beast. Its network layer is plumbing, but several parts carry
their own logic: the SHA-1 object, the middleware chain, the router, the client's request pipeline, the
server-sent-event stream, and the text codecs. This project models those parts in Dafny and proves what they are for,
over all inputs and over all runs.

Each module is one component, in the form the library gives it. What the library does step by step is a method or a
class, proved equal to a specification function; the lemmas then say what that function means.

| module | component | main result |
|---|---|---|
| `Sha1`, `Sha1Spec`, `Sha1KnownAnswer` | streaming hash object | however a message is cut into updates, the digest is SHA-1 by section 6.1.2 of FIPS 180-4 |
| `Middleware`, `MiddlewareExceptions` | chain of a session | what starts is a prefix in order; the exact condition under which the handler runs; what exceptions end, and where they stop |
| `Routing`, `Routes`, `Attributes`, `Percent`, `Text` | dispatch of a request | a most specific route is found; independent of registration order exactly when no two routes are ambiguous; captured parameters are the values that were spelled |
| `ClientSession`, `ClientEvents` | request pipeline | in every run an answered request's callback is told exactly once, its own response or the time-out that came before it; what a callback that throws changes, exactly; successful completions answer every request |
| `EventStream`, `SseQueue`, `SseEvents`, `SseDelivery` | server-sent events | the receiver interprets exactly the events sent, or a prefix of them wherever the connection breaks off |
| `Base64`, `Urls` | codecs | round trips, with the exact set of texts on which they hold |

`Common` holds the option and result types. `dafny verify dfyconfig.toml` checks the whole project.

## How to read the models

- **State machines.** `ClientSession` and `SseQueue` have one specification function per handler, a `Step` over all
  events, and a class whose methods do what the handlers do and are proved to make exactly that step. A run is any
  sequence of enabled events from the initial state; the lemmas on runs speak of every state of every run. What the
  operating system does (resolve, connect, write, read and timers completing, with success or an error) is an event.
- **One step per handler.** Client handlers run one at a time, as they do with the default single worker; the timer
  handler takes no lock in the code. Handlers of operations hold the session's mutex while a callback runs, so such a
  callback cannot start another request of the same session; a callback that is told of a time-out can, and that comes
  to the same as starting it right after the handler (`ClientSession.TimeOutThenSubmissions`).
- **Exceptions.** Whether a callback throws is part of the event that makes a handler invoke it. A handler that is left
  by an exception leaves everything as it was at that point, and a worker that gets a standard exception runs on
  (`src/application.cpp:72-80`).
- **History.** Ghost fields record what has happened: callbacks invoked, payloads written, bytes absorbed. They are
  never read by code.
- **Request contexts** of the client are kept in a table, named by the number of the `run` call, in place of shared
  objects. `wire` is the connection: responses come back in the order in which requests were written. `linked` stands
  for an open socket; the code asks for it only when the queue is empty. `stored` is the response that `_response`
  holds; once a response has been handed to a callback, which may move it away, there is none.
- **A middleware** is a list of actions: log, call `next` (with or without a `catch` around it), throw. Since each is
  started at most once in a run, which is proved, such a list stands for whatever it decides to do in that run.
- **The unrolled rounds** of SHA-1 are sixteen times five macro calls, with the five register renamings written out;
  the macros R0 to R4 are one method that branches on the round. `blk` overwrites the array in place.
- **`std::sort`** is known to its callers by its contract only: some ordered permutation. Results on dispatch therefore
  hold for every order of ties.
- **Texts** are sequences of characters below 256 where the code works on bytes. `CHAR_TABLE` and `INDEX_TABLE` of
  base64 are written by ranges. Whether `char` is signed is a parameter of `Decode`, whose outcome may be undefined.
- **The event stream** is every byte after the response head. What a receiver makes of the head itself, whose
  `prepare_payload` on an empty body may announce a length of zero (`include/beauty/sse_session.hpp:126-132`), is not
  part of this model.

## Where the code does not do what one might expect

Each of these is stated as a lemma, with the exact condition where there is one.

- A query parameter shadows a path parameter of the same name: `/u/5?id=6` on the pattern `/u/:id` gives `id` the
  value 6 (`Routes.CapturedIsQueryOverPath`, `Routes.QueryShadowsPathParameter`).
- Two routes that differ in parameter names only are dispatched by the order the sort happens to leave
  (`Routing.OrderIndependence`).
- The comparator's `power` reaches 2^n for n segments, which overflows an `int` beyond thirty
  (`Routing.PowerFitsUpToThirtySegments`); `AddRoute` asks that no two routes of a verb share such a length.
- A middleware that does not call `next` is not final if one around it calls `next` again
  (`Middleware.SilentMiddlewareIsPassedOver`, `Middleware.HandlerRunsExactlyWhen`). A first middleware that does not
  call `next`, like the key check of the library's README (`README.md:343-353`), does stop the chain.
- A timer that expired just before it was cancelled makes its handler throw after the request was answered in time
  (`ClientSession.TimerThrowsExactlyWhen`, `ClientSession.LateTimerThrows`).
- A callback is dropped only after it has returned. One that throws on being told of its time-out is invoked again,
  with the response (`ClientSession.ThrowingCallbackIsInvokedAgain`); one that throws on its response leaves the
  requests behind it waiting, with the flag cleared and nothing outstanding, until the next submission
  (`ClientSession.ThrowingCallbackStalls`; exactly when, `ClientSession.OneOperationForTheFront`).
- The response to a request that timed out is not dropped. Its callback is gone by then, so the handler takes the
  branch of a synchronous request and overwrites `_response` (`src/session_client.hpp:359-367`); the test of
  `too_late` beside a callback never fails (`ClientSession.StoredIsTheLastUndelivered`,
  `ClientSession.TooLateMarksTimeOuts`).
- A client session keeps its connection for requests to other hosts, and one client uses one session for every http URL
  (`src/client.cpp:227-233`): a request is written to its own host if and only if the connection was resolved for that
  host (`ClientSession.WrittenToItsOwnHostExactlyWhen`, `ClientSession.OtherHostIsNotReached`).
- After a failed resolve, connect, write or read the client session never makes progress again
  (`ClientSession.FailedOperationIsFinal`).
- `strip_login_password` keeps the URL only if the host needs no brackets and there is a host or a port to print
  (`Urls.StripLoginPassword`, `Urls.StrippingLosesBrackets`).
- `decode` of base64 indexes its table of 256 entries with a `char`. Where that type is signed, it reads outside the
  table if and only if the length is a multiple of four and the first character outside the alphabet is 128 or more
  (`Base64.TableIsLeftExactlyWhen`, `Base64.HighBytesLeaveTheTable`); no text that it accepts is of that kind
  (`Base64.AcceptedStaysInTable`).
- `decode` of base64 accepts padding bits that are not zero; `encode` gives the same text back exactly on canonical
  texts (`Base64.EncodeDecode`).
- The port of a URL may be followed by anything, and so may a host in brackets, up to a colon (`Urls.PortExactly`,
  `Urls.HostExactly`).
- A path segment that holds an equals sign is matched by a parameter and not captured (`Routes.CapturesExactly`).
- Event ids, types and data with line ends of their own are not seen as sent (`EventStream.StreamRoundTrip`).

## Model

| member | source | states |
|---|---|---|
| Sha1.SHA1.Update | src/sha1.cpp:41-54 | the bytes absorbed since the last reset grow by the whole stream, fewer than 64 of them stay buffered, and the digest words are the hash of all complete blocks |
| Sha1.SHA1.Digest | src/sha1.cpp:82-97 | the twenty bytes are SHA-1 (FIPS 180-4, sections 5.1.1 and 6.1.2) of everything absorbed, and the object is as new |
| Sha1.DigestOfPieces | src/sha1.cpp:41-97 | any way of cutting a message into updates, of a fresh or a reset object, gives SHA-1 of the whole message |
| Sha1.DigestsOfMessages | src/sha1.cpp:41-126 | one object used for any number of messages, each cut in its own way, gives the SHA-1 of each |
| Sha1.SHA1.FillBuffer | src/sha1.cpp:135-141 | the buffered bytes, the marker byte, and zeros up to a whole block |
| Sha1.SHA1.ComputeDigest | src/sha1.cpp:130-159 | padding in place hashes exactly the blocks of the standard's padded message, one or two |
| Sha1.SHA1.Transform | src/sha1.cpp:165-295 | one in-place transform appends one block to what the digest words are the hash of |
| Sha1.SHA1.Reset | src/sha1.cpp:114-126 | nothing absorbed, the initial hash value of section 5.3.1 |
| Sha1.SHA1.constructor | src/sha1.cpp:26-29 | a fresh object has absorbed nothing |
| Sha1.EightyMacros | src/sha1.cpp:204-284 | the eighty macro calls over sixteen slots compute the eighty rounds over the eighty-word schedule |
| Sha1.FiveMacros | src/sha1.cpp:205-209 | five macro calls with renamed registers are five rounds with simultaneous assignment, and the names are back in place |
| Sha1.R | src/sha1.cpp:192-202 | each of R0 to R4 makes one round of section 6.1.2 on the renamed registers |
| Sha1.Blk | src/sha1.cpp:175-190 | the word written over slot i mod 16 is W(i), and the slots then hold W(i-15) to W(i) |
| Sha1.SlotsRead | src/sha1.cpp:177-190 | the four slots read are W(i-3), W(i-8), W(i-14) and W(i-16) |
| Sha1.SlotWritten | src/sha1.cpp:179 | overwriting one slot keeps the last sixteen words of the schedule in place |
| Sha1.NextWord | src/sha1.cpp:175-190 | the macro's exclusive-or and rotation are the schedule's recurrence |
| Sha1.MacroIsRound | src/sha1.cpp:175-202 | the rewritten Ch and Maj, the constants and the two register updates are step 3 of section 6.1.2 |
| Sha1.BufferToBlock | src/sha1.cpp:299-310 | sixteen big-endian words |
| Sha1.InputStream.Read | src/sha1.cpp:313-319 | a read delivers the next bytes, and leaves the stream good exactly when it delivered all that were asked for |
| Sha1.PaddingBlocks | src/sha1.cpp:136-158 | the standard's padding is one final block when fewer than 56 bytes are buffered, and two otherwise |
| Sha1.LengthInBlock | src/sha1.cpp:149-156 | two length words over the last two slots, whatever they held, are the eight length bytes |
| Sha1.TotalBits | src/sha1.cpp:133 | the 64-bit product of counter and block size is the message length in bits modulo 2^64 |
| Sha1.HashOneMore | src/sha1.cpp:286-294 | the hash of one more block is the compression of the hash so far |
| Sha1KnownAnswer.DigestOfAbc | src/sha1.cpp:82-97 | the digest of "abc", which guards the constants of the reference |
| Sha1KnownAnswer.EveryRound | src/sha1.cpp:204-284 | the working variables after the eighty rounds for that block, from eighty words and eighty turns computed one by one |
| Middleware.MiddlewareChain.CallNextFn | include/beauty/session.hpp:236-251 | one call of the closure, with index and guard as fields, makes the specified transition; the nested run terminates |
| Middleware.MiddlewareChain.Start | include/beauty/session.hpp:242-247 | a started middleware does its own actions, calling back into the chain |
| Middleware.HandleRequest | include/beauty/session.hpp:227-261 | the whole run from a fresh chain, and a failed outcome exactly when an exception escapes |
| Middleware.EveryRunIsOrderly | include/beauty/session.hpp:187-254 | whatever the middlewares do, those started are a prefix of global ++ local in order and once each; the handler runs at most once, after all of them |
| Middleware.NextIsOrderly | include/beauty/session.hpp:236-251 | every call of `next`, from any reachable state, keeps that order and closes the chain only when the handler runs |
| Middleware.HandlerRunsExactlyWhen | include/beauty/session.hpp:236-251 | if nothing throws, the handler runs if and only if for every k the first k middlewares call `next` at least k times; otherwise the chain stops at the least such k |
| Middleware.NextBalances | include/beauty/session.hpp:236-251 | until the chain is closed, started middlewares and calls still to come add up to the calls of those started |
| Middleware.AtMostOneCallEach | include/beauty/session.hpp:236-251 | with at most one call each, the handler runs exactly when all make one |
| Middleware.SilentMiddlewareIsPassedOver | include/beauty/session.hpp:236-251 | a second call of the outer middleware passes over a silent inner one |
| Middleware.OneCallEachIsAnOnion | include/beauty/session.hpp:236-251 | with one call each, the trace is properly nested around the handler |
| MiddlewareExceptions.ThrowingHandlerFailsExactlyWhen | include/beauty/session.hpp:236-259 | if nothing else throws and nothing catches, a request with a throwing handler fails if and only if the handler runs, which is under the condition on the calls of `next`; the exception is the end of the run |
| MiddlewareExceptions.NextEnds | include/beauty/session.hpp:236-251 | a run with a throwing handler is the same as one with a quiet handler up to the point where the handler runs, and nothing happens after that |
| MiddlewareExceptions.OneCallEachIsPeeled | include/beauty/session.hpp:236-251 | with one call each, whichever layers throw before or after it and whichever catch, the trace and the outcome are those of peeling the layers |
| MiddlewareExceptions.LayersPeel | include/beauty/session.hpp:236-251 | the same from any point of a run |
| MiddlewareExceptions.ExceptionStopsAtCatcher | include/beauty/session.hpp:236-254 | the handler's exception stops at the innermost layer that catches: that layer and those around it finish, none inside it does |
| MiddlewareExceptions.FirstCatcherProtects | include/beauty/session.hpp:253-261 | behind a first middleware that catches everything and does not throw, no request fails |
| Text.SplitColumns | src/utils.cpp:18-33 | the loop gives one column more than there are separators, including a final empty one |
| Text.JoinSplit | src/utils.cpp:18-33 | joining the columns gives the text back |
| Text.SplitJoin | src/utils.cpp:18-33 | splitting a joined list of separator-free columns gives the list back |
| Text.SplitColumnsAreFree | src/utils.cpp:18-33 | no column holds the separator |
| Text.SplitConcat | src/utils.cpp:18-33 | a separator between two texts is a boundary between their columns |
| Percent.Escape | src/utils.cpp:96-123 | the loop over unsafe characters escapes byte by byte |
| Percent.Unescape | src/utils.cpp:126-157 | the loop over matches decodes from the left, plus signs first |
| Percent.HexDigitValue | src/utils.cpp:35-37 | the value of a digit is its place in the list of sixteen, in either case |
| Percent.EscapeUnescape | src/utils.cpp:96-157 | unescape undoes escape, for every byte string |
| Percent.EscapedConcat | src/utils.cpp:105-120 | escaping works byte by byte |
| Percent.EscapedByte | src/utils.cpp:96-116 | an unreserved byte stays, any other becomes a percent sign and the two upper-case digits of its value |
| Percent.UnescapeDecodesEverySpelling | src/utils.cpp:126-157 | a text decodes to another if and only if it spells it: bytes as themselves, plus signs for blanks, triplets by the place of their digits in the list of sixteen in either case, and a percent sign without two digits as itself |
| Percent.EscapeIsPercentEncoded | src/utils.cpp:96-123 | only unreserved characters and upper-case triplets (RFC 3986, sections 2.1 and 2.3) come out |
| Percent.EscapeLeavesSafeTextAlone | src/utils.cpp:96-123 | the text itself comes out exactly when all of it is unreserved |
| Attributes.Attributes.constructor | src/attributes.cpp:6-13 | the store that the columns of the text bind |
| Attributes.Attributes.Insert | src/attributes.cpp:16-18 | a new key gets the decoded value, an existing one keeps its own |
| Attributes.FirstBindingWins | src/attributes.cpp:6-18 | a key has the decoded value of the first column that binds it |
| Attributes.UnboundKeyIsAbsent | src/attributes.cpp:6-13 | columns with no or several equals signs bind nothing |
| Attributes.FoundIsFirstBinding | src/attributes.cpp:6-28 | looking a key up gives the decoded value of its first binding, or the empty attribute |
| Attributes.ParsedConcat | src/attributes.cpp:6-18 | earlier columns win over later ones |
| Routes.NewRoute | src/route.cpp:6-49 | a path that does not start with a slash is refused, any other is cut into segments |
| Routes.Match | src/route.cpp:51-86 | true exactly for the route's kind and segments; the request's attributes are replaced by the captured ones when there are any, and untouched otherwise |
| Routes.CaptureRoundTrip | src/route.cpp:57-85 | the target spelled by a pattern, escaped values and a query matches, and every name is bound to exactly its value unless the query binds it; everything the query binds is bound |
| Routes.MatchesExactlyWhenSpelled | src/route.cpp:57-79 | a route of the right kind matches a target if and only if its pattern spells the path, with any segment whatever for a parameter |
| Routes.CapturesExactly | src/route.cpp:65-83 | what any match captures: the names the query binds, with its values, and the parameters whose segment has no equals sign, with the decoded segment; nothing else |
| Routes.CapturedIsQueryOverPath | src/route.cpp:65-83 | captured attributes are the path's bindings overridden by the query's |
| Routes.PairsBindValues | src/route.cpp:72-75 | the path's bindings are exactly the parameters with their values |
| Routes.QueryShadowsPathParameter | src/route.cpp:65-83 | the concrete request in which the query wins |
| Routing.Weigh | src/router.cpp:20-28 | on 32-bit integers and up to thirty segments the loop computes both weights without overflow |
| Routing.Less | src/router.cpp:11-31 | fewer segments first, then the more specific mask |
| Routing.CostOrder | src/router.cpp:20-30 | of two masks of equal length one precedes lexicographically, with the smaller weight, or they are equal, with equal weights |
| Routing.CostIsLexicographic | src/router.cpp:20-30 | weights compare as the masks do lexicographically, leftmost segment first, and are equal for equal masks only |
| Routing.PowerFitsUpToThirtySegments | src/router.cpp:21-27 | the last power fits an `int` exactly up to thirty segments |
| Routing.PrecedesIsStrictWeakOrder | src/router.cpp:11-31 | what `std::sort` asks of its comparator |
| Routing.StdSort | src/router.cpp:10-31 | some ordered permutation |
| Routing.Router.AddRoute | src/router.cpp:7-32 | every table stays an ordered permutation of the routes registered for its verb |
| Routing.Router.HandleRequest | include/beauty/session.hpp:204-265 | an unknown verb is a bad request, no match is not found, and otherwise a most specific matching route is chosen and its captures stored |
| Routing.FirstMatchIsMostSpecific | include/beauty/session.hpp:208-209 | in every ordered permutation the first match has the least mask of all registered routes that match |
| Routing.OrderIndependence | src/router.cpp:7-31 | dispatch is the same for every registration order, tie and target if and only if no two routes of one kind are equal up to parameter names on a pattern that a target can spell |
| Routing.AmbiguousDependsOnOrder | src/router.cpp:7-31 | for two such routes there are a target and two orders that choose differently |
| Routing.SpelledTargetReachesItsRoute | src/router.cpp:7-31 | in an unambiguous table the target a pattern spells reaches that route or a more specific one |
| ClientSession.SessionClient.RunRequest | src/session_client.hpp:122-161 | the new state of queue, flag, contexts and started operation |
| ClientSession.SessionClient.StartResolve | src/session_client.hpp:163-198 | sets the flag and resolves for the front request |
| ClientSession.SessionClient.HandleResolved | src/session_client.hpp:200-239 | goes on to connect, or fails the front request |
| ClientSession.SessionClient.HandleConnected | src/session_client.hpp:241-264 | goes on to write, or fails the front request |
| ClientSession.SessionClient.StartWrite | src/session_client.hpp:276-309 | writes the front request, or clears the flag when there is none |
| ClientSession.SessionClient.HandleWritten | src/session_client.hpp:311-337 | goes on to read, or fails the front request |
| ClientSession.SessionClient.HandleRead | src/session_client.hpp:339-370 | answers the front request and goes on, reconnects at the end of the stream, or fails the front request |
| ClientSession.SessionClient.FinishFront | src/session_client.hpp:354-367 | pops the front request, and tells its callback or stores the response; an exception of the callback gets out |
| ClientSession.SessionClient.HandleTimer | src/session_client.hpp:372-383 | fails and marks the request on expiry, unless an exception comes first |
| ClientSession.SessionClient.TellCallback | src/session_client.hpp:360-364 | an invoked callback is dropped when it returns, and stays when it throws |
| ClientSession.SessionClient.FailRequest | src/session_client.hpp:405-417 | a callback that is there is told; the handler throws when the callback does, or when there is none |
| ClientSession.SessionClient.FailFrontRequest | src/session_client.hpp:204-207 | a failed operation fails the front request, which stays where it is |
| ClientSession.SessionClient.Handle | src/session_client.hpp:122-383 | whatever event comes next, its handler makes the specified step, and the invariant of every run holds again |
| ClientSession.SessionClient.HandleTimeOut | src/session_client.hpp:372-383 | a time-out callback that submits requests while it runs leaves the state of the handler followed by those submissions |
| ClientSession.TimeOutThenSubmissions | src/session_client.hpp:372-417 | submissions from inside a time-out callback, any number of them, commute with what the handler does after it |
| ClientSession.StepKeepsInvariant | src/session_client.hpp:122-417 | every enabled event keeps the invariant of the pipeline and what the handlers rely on, whether callbacks throw or not |
| ClientEvents.EveryEventReports | src/session_client.hpp:200-417 | in every run a failed resolve, connect, write or read is told to the callback of the request in front with its own code, a response to the request it answers, a time-out to its own request, and nothing to anyone else; without a callback an error makes the handler throw |
| ClientEvents.OneStageFollowsTheOther | src/session_client.hpp:122-370 | in every run resolve, connect, write and read of the front request follow each other without a skip, then the write of the next one; a failure or a throwing callback starts nothing |
| ClientEvents.QueueMovesWithEvents | src/session_client.hpp:147-354 | in every run a submission goes to the end of the queue, a complete response takes the front away, and the session is broken exactly since an operation failed |
| ClientEvents.RequestsAreSubmissions | src/session_client.hpp:44-128 | in every run host and kind of a request are those of its submission, and its timer is waited for exactly if a limit was given and the timer's handler has not run |
| ClientEvents.ConnectionIsKept | src/session_client.hpp:141-198 | in every run a connection once established is kept, also while nothing is queued, until a stream ends |
| ClientSession.OneOperationForTheFront | src/session_client.hpp:122-370 | in every run at most one operation is outstanding, for the front request; the front exists whenever a handler looks; the flag is set exactly while requests are queued, if and only if no callback has thrown on its response with requests behind it since the last submission |
| ClientSession.CallbacksGetTheirOwnResponse | src/session_client.hpp:339-417 | in every run no request is lost or reordered; a callback of an answered request was given that request's response, or is marked as told of a time-out; it is invoked again only after it threw, and never told the same twice |
| ClientSession.AnsweredExactlyOnce | src/session_client.hpp:339-417 | a callback that never throws is invoked exactly once for an answered request: with its own response, or with the time-out if the request is marked |
| ClientSession.StoredIsTheLastUndelivered | src/session_client.hpp:359-367 | the session holds the response of the request answered last if and only if no callback was given it; that request was synchronous or had timed out |
| ClientSession.FailedOperationIsFinal | src/session_client.hpp:405-417 | requests wait with nothing outstanding exactly after a failed operation, and then for ever, or while a throwing callback has stalled them |
| ClientSession.RequestsDrain | src/session_client.hpp:200-370 | in every run, while completions succeed and their callbacks do not throw, one operation is outstanding as long as requests remain and every completion uses up a step; after at most four for each request, all are answered, whatever the timers do |
| ClientSession.WrittenToItsOwnHostExactlyWhen | src/session_client.hpp:143-198 | in every run an outstanding write or read is with its own host if and only if that is the host of the request that found the queue empty and the socket closed, or that was in front at the last end of stream |
| ClientSession.OneHostIsAlwaysItsOwn | src/session_client.hpp:143-198 | a session used for one host writes every request to it |
| ClientSession.OtherHostIsNotReached | src/session_client.hpp:143-198 | a run in which a request for another host is written to the first one's |
| ClientSession.TooLateMarksTimeOuts | src/session_client.hpp:359-383 | a queued request without its callback timed out or failed; `too_late` is never set beside a callback |
| ClientSession.TimerThrowsExactlyWhen | src/session_client.hpp:372-417 | in every run a timer handler throws if and only if it reports expiry for a synchronous request, for one whose callback returned from something else than a time-out, or for one whose callback throws now |
| ClientSession.LateTimerThrows | src/session_client.hpp:357-383 | a run in which it throws after the response was delivered in time |
| ClientSession.ThrowingCallbackIsInvokedAgain | src/session_client.hpp:359-383 | a run in which a callback is told of a time-out, throws, and is given the response |
| ClientSession.ThrowingCallbackStalls | src/session_client.hpp:354-369 | a run in which a throwing callback leaves the next request waiting, and the next submission writes it |
| EventStream.Send | src/sse_stream.cpp:7-31 | the payload of a call, nothing for empty data |
| EventStream.LinesJoined | src/sse_stream.cpp:22-26 | the data lines rebuild the data, with one final line feed supplied if it is missing |
| EventStream.PayloadInterpreted | src/sse_stream.cpp:7-31 | one payload dispatches one event (WHATWG HTML Standard, section 9.2.6) with its type, the running id and its data |
| EventStream.PrintableStream | src/sse_stream.cpp:7-31 | any calls and heartbeats dispatch exactly the events sent, in order |
| EventStream.StreamRoundTrip | src/sse_stream.cpp:7-31 | they do so if and only if ids are free of CR, LF and NUL, types of CR and LF, and data of CR |
| EventStream.OnlyCleanEvents | src/sse_stream.cpp:7-31 | no stream at all can dispatch an event with such characters |
| SseQueue.SseStreamImpl.constructor | include/beauty/sse_session.hpp:117-138 | the head is posted first, then the heartbeat is armed |
| SseQueue.SseStreamImpl.HandleSend | include/beauty/sse_session.hpp:30-44 | refuses and closes above 1024 queued payloads, otherwise pushes and writes if idle |
| SseQueue.SseStreamImpl.Close | include/beauty/sse_session.hpp:46-53 | closing waits its turn on the strand |
| SseQueue.SseStreamImpl.HandleTimer | include/beauty/sse_session.hpp:59-68 | a heartbeat is sent and the timer armed again while the socket is open |
| SseQueue.SseStreamImpl.HandleWritten | include/beauty/sse_session.hpp:93-101 | pops and writes the next payload, or closes without popping |
| SseQueue.SseStreamImpl.RunNext | include/beauty/sse_session.hpp:30-102 | the strand's next handler makes the specified step; the pop never meets an empty queue |
| SseQueue.StepKeepsInvariant | include/beauty/sse_session.hpp:30-102 | every step keeps a single writer and a gap-free delivery |
| SseQueue.QueueIsBoundedWithOneWriter | include/beauty/sse_session.hpp:30-44 | in every run at most 1025 payloads are queued and one write is outstanding, and the queue is non-empty exactly while one is or after one failed |
| SseQueue.ReceivedIsPrefixOfSent | include/beauty/sse_session.hpp:30-102 | in every run written ++ queued is what was accepted, and what was written, followed by the payload in hand, is a prefix of what was sent, the head first |
| SseQueue.EverythingIsDeliveredExactlyWhen | include/beauty/sse_session.hpp:30-102 | in every run everything sent has been written if and only if nothing was refused, nothing waits for the strand and nothing is queued |
| SseQueue.RefusedExactlyWhenFull | include/beauty/sse_session.hpp:33-42 | a payload is refused exactly when 1025 are queued, and a refusal asks for the close |
| SseQueue.FailureIsFinal | include/beauty/sse_session.hpp:93-101 | after a failed write nothing is ever written or outstanding again |
| SseQueue.HeartbeatIsAlwaysDue | include/beauty/sse_session.hpp:59-68 | while the connection is open exactly one heartbeat timer or its handler is pending |
| SseEvents.PostedIsWhatWasSent | include/beauty/sse_session.hpp:30-66 | in every run what was sent is the head, the payload of every call and one heartbeat for every expired timer that found the connection open, in order |
| SseEvents.StrandRunsInOrder | include/beauty/sse_session.hpp:30-102 | in every run the posted handlers, close requests and completions among them, run in order and once each |
| SseEvents.ClosedExactlySince | include/beauty/sse_session.hpp:46-98 | in every run the socket is closed exactly since a close request ran or a write failed, on an idle connection too |
| SseEvents.HeartbeatEndsWithConnection | include/beauty/sse_session.hpp:59-68 | after the close no timer is armed again |
| SseEvents.OneWriteForEveryPayload | include/beauty/sse_session.hpp:87-102 | in every run every successful write completes exactly one payload |
| SseDelivery.PeerSeesPrefixOfEvents | include/beauty/sse_session.hpp:30-138 | printer and queue together: whatever part of the payload in hand got through, also of one whose write failed midway, the peer has a part of the head, or the head and a text that is interpreted as a prefix of the events sent |
| SseDelivery.PeerSeesEveryEvent | include/beauty/sse_session.hpp:30-138 | when nothing was refused and nothing waits, the peer interprets exactly the events sent |
| SseDelivery.InterpretedPrefix | src/sse_stream.cpp:7-31 | a stream that breaks off anywhere dispatches a prefix of the events of the whole |
| Base64.Encode | include/beauty/base64.hpp:8-50 | the pre-sized buffer is filled exactly, every write in bounds, with the encoded text |
| Base64.Decode | include/beauty/base64.hpp:62-121 | for every byte string and both kinds of `char`: undefined exactly if a lookup leaves the table, otherwise the decoded bytes, or an empty text for a malformed one; every write in bounds, and the characters looked up |
| Base64.TableIsLeftExactlyWhen | include/beauty/base64.hpp:79-110 | with a signed `char` a lookup leaves the table if and only if the length is a multiple of four and the first character outside the alphabet is 128 or more; with an unsigned one never |
| Base64.HighBytesLeaveTheTable | include/beauty/base64.hpp:90 | four characters that start with 255 |
| Base64.AcceptedStaysInTable | include/beauty/base64.hpp:88-110 | no accepted text leaves the table |
| Base64.CharOf | include/beauty/base64.hpp:9-15 | the alphabet's character, whose index is the one given |
| Base64.CharOfIsAlphabet | include/beauty/base64.hpp:9-15 | the alphabet is the 64 characters of RFC 4648, table 1, in order |
| Base64.CharOfIndex | include/beauty/base64.hpp:63-78 | the index table is the inverse of the alphabet |
| Base64.DecodingEncoded | include/beauty/base64.hpp:8-121 | every encoded text is well-formed and decodes to the bytes it came from |
| Base64.EncodedCanonical | include/beauty/base64.hpp:8-121 | every canonical text is well-formed, and encoding what it decodes to gives it back |
| Base64.DecodeEncode | include/beauty/base64.hpp:8-121 | decode undoes encode, for every byte string |
| Base64.EncodeDecode | include/beauty/base64.hpp:8-121 | encode undoes decode if and only if the text is canonical (RFC 4648, section 3.5) |
| Base64.EncodedIsCanonical | include/beauty/base64.hpp:8-50 | every encoded text is canonical |
| Base64.EncodedDenotesTheSameNumber | include/beauty/base64.hpp:8-50 | bytes in base 256 and characters in base 64 are digits of the same number, up to the padding bits |
| Base64.AcceptedExactlyWhen | include/beauty/base64.hpp:79-118 | a text is accepted if and only if it is made of whole groups of the alphabet with at most two padding characters, whatever the padding bits |
| Base64.DecodedLength | include/beauty/base64.hpp:84-118 | three bytes for a group, less one for each padding character |
| Base64.DecodedDenotesTheSameNumber | include/beauty/base64.hpp:86-118 | an accepted text is decoded to the bytes of its number, less the padding bits |
| Urls.Construct | src/url.cpp:31-94 | filling the views step by step gives the parsed URL, and throws exactly when it is malformed |
| Urls.SplitPairViews | src/url.cpp:11-26 | one or two columns, a single one on the mandatory side, and an error for more |
| Urls.HostAndPortViews | src/url.cpp:51-70 | plain and bracketed hosts with an optional port |
| Urls.PathAndQueryViews | src/url.cpp:81-93 | the path up to the query, each up to a NUL where the view is made from a pointer |
| Urls.ParsePrint | src/url.cpp:31-94 | parsing printed components succeeds and gives the same components back |
| Urls.ParsesExactlyWhenSpelled | src/url.cpp:31-94 | a text is accepted as a URL if and only if the components spell it, delimiter by delimiter; every other text is refused |
| Urls.HostExactly | src/url.cpp:51-70 | which texts are a host and a port, plain or in brackets, with what is ignored behind the brackets |
| Urls.PairExactly | src/url.cpp:11-26 | which texts are a pair |
| Urls.PortExactly | src/url.cpp:71-78 | which texts are a port: leading digits that fit sixteen bits, with anything behind them ignored |
| Urls.TailExactly | src/url.cpp:81-93 | how path and query share what follows the authority |
| Urls.PortReadBack | src/url.cpp:71-78 | every printed port is read back |
| Urls.ParsedHasShape | src/url.cpp:31-94 | what every accepted URL satisfies |
| Urls.StripLoginPassword | src/url.cpp:97-100 | the stripped text is accepted with the same scheme, host, port and path and nothing else, if and only if there is a host or port, the host needs no brackets and the path holds no NUL |
| Urls.StrippingLosesBrackets | src/url.cpp:51-59 | the accepted URL of an IPv6 host that stripping does not keep |

## Left out

- Sockets, name resolution, TLS, HTTP parsing and serialisation, coroutine scheduling: foreign code, present as events only.
- The TLS instances of `session` and `session_client`: the same machines with more foreign calls.
- `websocket_session` and `websocket_client` write queues: the event stream's single writer without its bound.
- `application`, `timer`, `signal`, `acceptor`: thread and event-loop wiring.
- Verb overloads and wrappers of `server.cpp` and `client.cpp`, `exception.hpp`, `header.hpp`, `certificate.hpp`: forwarding and constants.
- Swagger output, `extract_route_info` and `update_route_info`: formatting and merging of descriptions.
- `make_uuid`, `thread_set_name`, numeric conversions of attributes, the unused `next_decode_input`, `SHA1::final` and `SHA1::from_file`: randomness, library conversions, dead code, the same digest as text.
- Error response bodies, `start_drain` and the disconnect callbacks of event streams, registration of middleware: settled by one branch.
- Races of a timer handler with another worker, and a callback told of a response or a failure that calls back into its session, whose mutex is held: outside the one-step-per-handler reading above.
- Byte-order mark and UTF-8 decoding of an event stream: the interpretation starts from characters.
- Routing.Router.AddRoute: asks that no two routes of the verb have the same number of segments beyond thirty, because comparing those overflows the comparator's `int`, which C++ leaves undefined.
- Base64.Decode: says of a lookup outside the table only that the outcome is undefined, as C++ does.
- Sha1.SHA1.Digest: for messages of 2^61 bytes and more, which the standard does not cover, the reference takes the length modulo 2^64 as the code does.
- ClientSession.SessionClient.HandleTimer: request contexts live in a table and not in objects shared with the timer's handler, so their lifetime is not modelled.
- Middleware.HandleRequest: the response object that middlewares and handler write to is not modelled, only what runs and in which order.
