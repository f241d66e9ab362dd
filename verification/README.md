# Verification of the RF_IO_V3 device firmware

A Dafny model of the stateful core of the firmware, with proofs that hold over all inputs and
whole runs: the device's web API (access control, uploads, file streaming, actions, logins, the
change counter, the JSON printer and populator), the real-time clock's calendar arithmetic, the
firmware update and rollback protocol, the UART driver and the heap allocator.

`dafny verify dfyconfig.toml` checks everything (Dafny 4.11).

## Structure

| module | models |
|---|---|
| `Common` | options, bytes, the 32-bit word, sequences |
| `Calendar` | `tm_to_unix` against a day-by-day count, and its inverse; `_gettimeofday` |
| `Glob`, `Stars`, `StarFaults` | `mg_match`, and exactly which patterns mean what is documented |
| `Routing` | `get_api_handler`, custom routes |
| `Upload` | the upload re-chunker under any fragmentation |
| `WebApi` | the connection state machine behind the loop of the HTTP parser, as a class and as step functions |
| `WebApiRuns`, `WebApiRefusals`, `WebApiAnswers` | whole runs of it: authorisation, release of resources, refusals, answers and executions |
| `WebApiAccess`, `WebApiService` | who may do what, and what becomes of each request, told from the table and the request alone |
| `WebApiUploads`, `WebApiPipelining` | uploads on a live connection, and what happens to them behind another request in the buffer |
| `WebApiBodies` | exactly when the body of a message has passed the check of the write level |
| `WebApiUnattended` | connections handed over to a custom handler or marked for a websocket, and what becomes of the requests on them |
| `JsonText`, `JsonScan`, `JsonLookup`, `JsonGrammar`, `JsonStruct` | escaping, numbers; `mg_json_get`, what it finds in objects of any shape, and the grammar it decides on every text; printing and populating structs |
| `PrintArray`, `Version` | array answers; the change counter and the writes that advance it |
| `FileStream`, `Actions`, `Users` | file streaming, timed actions, logins and tokens |
| `OtaBoot`, `Uart`, `Heap` | boot check and rollback, UART reception, `_sbrk` |

Handlers that update state in place are classes (`WebApi.Connection`, `FileStream.FileConnection`,
`Actions.Action`, `Version.Device`, `Users.Logins`, `OtaBoot.Target`, `Uart.Driver`,
`Heap.Allocator`). Each of their methods is proved equal to a step function, and the theorems about
whole runs are proved on the step functions. The environment (network, HTTP parser, interrupts,
clock, firmware callbacks) chooses the order of events and every answer.

The modules separate what is the code's from what it is measured against: the closed form and the
plain count of days; the re-chunker and the bytes that arrived; the connection handler and an
auditor that sees effects only; the access check and the levels in the table; an upload's writer and
the bytes on the wire; the JSON scanner, the values that a text was made from, and a grammar read by
recursive descent; the matcher with one restart point and the documented meaning of a pattern.

## What the code does not do

Where the code falls short of its documentation or of what one would expect, the model follows the
code, a lemma gives the failing case, and another says exactly when all is well.

- Uploads: an upload declared empty never completes (`Upload.EmptyUploadNeverEnds`). The 32-bit sum
  of received and buffered bytes can wrap for declared lengths in the last 3 MB below 2^32, and only
  for those (`Upload.WithoutRoomTheSumWraps`, `Upload.DoneExactlyWhenArrived`).
- Write levels: they are checked when the headers are reported, with the body length known by then. A
  chunked request declares none and at a close the body is whatever is left, so a user who may only
  read can write (`WebApiBodies.NetworkSettingsAreWritten`). `WebApiBodies.WriteLevelIsCheckedIff` and
  `WebApiBodies.WriteLevelAtCloseIff` say for which requests the check holds for every message.
- Uploads behind another request: completed messages leave the buffer when the parser's loop is over,
  but an upload deletes its headers from the front at once. In one packet with the request before it,
  the end of the headers is written as the start of the file (`WebApiPipelining.OnePacketIsCorrupted`);
  the writer gets the body if and only if no completed message is in the buffer at the headers
  (`WebApiPipelining.TheBodyIsWrittenIff`).
- A firmware upload that its opener turns down is answered again each time its headers are reported
  (`WebApiAnswers.EachReportIsAnswered`), and so never has the one answer it should; every other
  request that is completed has (`WebApiAnswers.AnsweredAndDoneOnce`).
- Custom handlers take the connection over: later requests on it reach them without a check
  (`WebApiUnattended.StrangerIsPassedOn`, for any requests `WebApiUnattended.AnythingIsPassedOn`). A
  request is passed on unchecked if and only if a message of a custom route was served before it
  (`WebApiUnattended.PassedOnIff`), and none ever is if and only if no request both passes the check and
  belongs to a route (`WebApiUnattended.NothingIsPassedOnIff`).
- After a refused upgrade of an API of type websocket, a request that is still in the buffer is never
  answered (`WebApiUnattended.PipelinedIsNeverAnswered`). Exactly which completed requests are rightly
  answered, on connections that are attended to, upgraded or marked, is
  `WebApiAnswers.RightlyAnsweredIff`.
- Wildcards, against mongoose.h:1283-1286: a `*` can swallow a slash, with no `#` before it or with one
  (`Glob.StarCanSwallowASlash`, `StarFaults.StarCanOverrun`), and a `#` before a `*` can miss a match
  (`Glob.StarCanMissAMatch`). A pattern of literals, `*` and `#` is exact if and only if each of its
  stars is sound, which can be read off the pattern (`StarFaults.ExactIffClear`). Patterns without `*`,
  and all patterns that the web API itself uses, are exact (`Glob.StarFreeIsExact`,
  `Stars.OwnPatternsAreExact`).
- Firmware updates: the automatic commit described at mongoose.h:4183-4200 cannot happen after a
  boot check, because the boot check has already left the `TESTING` state (`OtaBoot.PollsDoNothing`,
  `OtaBoot.WhenAPollCommits`). A failed update while new firmware is on probation overwrites the
  image that a rollback would restore (`OtaBoot.UncommittedIsUndone`).
- UART: bytes are put at the front of the queue, so a burst is received in reverse
  (`Uart.BurstComesBackReversed`). A receive for no byte stores one (`Uart.ResultIsWithinLenIff`).
- File streaming: a request without a file name is never finished (`FileStream.DrainsIffNamed`).
- Logins: a user name of 32 characters or more adds an entry at each login
  (`Users.SecondLoginAddsNoneIff`), and the user whose name is the first 31 characters of it gets that
  entry, with its token and level (`Users.PrefixBorrowsTheEntry`, `Users.GrantedLevelIff`). A Bearer
  token is taken for a password (`Users.BearerTokensAreNotLookedUp`).
- JSON strings: one with an unknown escape is stored up to it and not terminated
  (`JsonStruct.BadEscapeLeavesTheRest`).
- Change counter: it moves without a change of data for handlers without a setter
  (`Version.WhenTheCounterMovesForNothing`).

## Model

| member | source | states |
|---|---|---|
| Calendar.ClosedFormIsTheCount | Core/Src/rtc.c:154-188 | for every valid date from 1970 on, the divisions, the month table and the leap correction give the number of days counted year by year and month by month, and the time of day on top |
| Calendar.YearDaysAreACount | Core/Src/rtc.c:166-170 | the three truncating quotients add up to the leap days of all years since 1970 |
| Calendar.MonthTableIsACount | Core/Src/rtc.c:157-180 | month table plus leap correction is the sum of the lengths of the months before |
| Calendar.EpochIsZero | Core/Src/rtc.c:154-188 | among the valid dates 1970-01-01 00:00:00, and no other, is mapped to zero |
| Calendar.NextSecondAddsOne | Core/Src/rtc.c:154-188 | the next civil second, over every carry from minute to century, is exactly one more |
| Calendar.FromUnixIsARightInverse | Core/Src/rtc.c:154-188 | every natural number is the time of the valid date that the written inverse gives for it |
| Calendar.FromUnixIsALeftInverse | Core/Src/rtc.c:154-188 | the written inverse undoes the conversion for every valid date, so it is a bijection with the naturals |
| Calendar.OrderIsPreservedAndReflected | Core/Src/rtc.c:154-188 | civil order and numeric order agree in both directions, and so does equality |
| Calendar.FourCenturies | Core/Src/rtc.c:166-170 | the same date 400 years later is 146097 days later |
| Calendar.DivisionTruncates | Core/Src/rtc.c:166-170 | quotient and remainder are C's: rounded towards zero, with the dividend's sign |
| Calendar.GetTimeOfDay | Core/Src/rtc.c:189-227 | succeeds exactly when a buffer is given and both readings succeed; the time's seconds, minutes and hours are those of the reading, and its days are the days before the reading's year, month and date |
| Calendar.ReadingIsInRange | Core/Src/rtc.c:206-221 | no reading of the clock is mistaken for the error value -1 |
| Calendar.ReadingIsTold | Core/Src/rtc.c:206-221 | from the time that is reported, second, minute, hour and day of the reading can be read off by division |
| Glob.Match | mongoose/mongoose.c:14379-14414 | the loop with its one restart point decides `MgMatch`, and the documented meaning for patterns without `*` |
| Glob.StarFreeIsExact | mongoose/mongoose.c:14379-14414 | a pattern without `*` matches exactly the texts it is documented to match |
| Glob.LiteralMatch | mongoose/mongoose_impl.c:759-769 | a literal endpoint is matched by itself alone |
| Glob.PrefixMatch | mongoose/mongoose_impl.c:720-721 | a literal followed by `#` is matched exactly by its extensions |
| Glob.StarCanSwallowASlash | mongoose/mongoose.c:14399-14402 | a text with a slash under the star that is accepted against the documentation |
| Glob.StarCanMissAMatch | mongoose/mongoose.c:14396-14398 | a text that is refused against the documentation |
| Stars.LoopDecidesLoosened | mongoose/mongoose.c:14379-14414 | where no star can get stuck behind a `#` or swallow a slash before one, the loop decides the pattern with the stars behind a `#` loosened to `#` |
| Stars.Tighten | mongoose/mongoose.h:1283-1286 | a text that matches the loosened pattern matches the pattern, if all stars are sound |
| Stars.ClearIsExact | mongoose/mongoose.c:14379-14414 | a pattern all of whose stars are sound decides the documented meaning on every text |
| Stars.OwnPatternsAreExact | mongoose/mongoose_impl.c:559-563 | the starred patterns of the web API mean what is documented |
| StarFaults.ExactIffClear | mongoose/mongoose.c:14379-14414 | a pattern of literals, `*` and `#` decides the documented meaning on every text if and only if each star is sound: with no `#` before it, a slash right behind it is followed at once by a wildcard; behind a `#`, it is followed by slashes only up to another wildcard, and if they are two or more, there are only stars and lone slashes since the last `#` |
| StarFaults.SwallowingDoesNotMatch | mongoose/mongoose.c:14399-14402 | the text built for a star with no `#` before it that is not sound does not match, though it is accepted |
| StarFaults.StickingMatches | mongoose/mongoose.c:14396-14402 | the text built for a star behind a `#` that can get stuck matches, though it is refused |
| StarFaults.OverrunningDoesNotMatch | mongoose/mongoose.c:14396-14402 | the text built for a star behind a `#` that should stop at a slash does not match, though it is accepted |
| StarFaults.StarCanOverrun | mongoose/mongoose.c:14396-14402 | such a text for `#a*//#` |
| StarFaults.ExactIffTame | mongoose/mongoose.c:14399-14402 | without a `#`: if and only if each slash right behind a star is followed at once by the next star |
| StarFaults.OneStarIsExactIff | mongoose/mongoose.c:14399-14402 | with one star between literals: if and only if no slash follows it, unlike in `/files/*/x` |
| Routing.GetApiHandler | mongoose/mongoose_impl.c:244-258 | the scan returns the first handler whose name is a prefix up to a slash or the end |
| Routing.ScanFindsTheFirstSegment | mongoose/mongoose_impl.c:244-258 | with distinct, slash-free names it returns a handler if and only if that handler's name is the first path segment |
| Routing.OrderIsIrrelevant | mongoose/mongoose_impl.c:244-263 | two tables with the same such handlers, in any order, route every URI alike |
| Routing.FirstMatchIsFound | mongoose/mongoose_impl.c:704-712 | the custom route found is the first in the list whose pattern matches, and none is found if and only if none matches |
| Upload.BytesAreConserved | mongoose/mongoose_impl.c:386-401 | in every run, what the writer was given followed by what is still buffered is what arrived |
| Upload.EveryRunKeeps | mongoose/mongoose_impl.c:386-417 | in every run each offset is the sum of the earlier lengths, non-final writes are aligned, and fewer than 512 bytes stay behind |
| Upload.WritesAreAligned | mongoose/mongoose_impl.c:387-401 | every offset, and every length but a final one, is a multiple of 512, even where the offset wraps |
| Upload.DoneExactlyWhenArrived | mongoose/mongoose_impl.c:410-417 | the upload is done at, and not before, the first event by which the declared bytes have arrived |
| Upload.FirstFailureIsTheLast | mongoose/mongoose_impl.c:401-409 | in every run all calls of the writer before the last succeeded; the upload has failed if and only if the last one did not |
| Upload.DoneIff | mongoose/mongoose_impl.c:401-417 | whatever the writer answers, an upload is done if and only if every call succeeded and the declared bytes have arrived |
| Upload.RunningStateIsCanonical | mongoose/mongoose_impl.c:386-417 | the state of an unfinished upload depends only on the bytes that have arrived |
| Upload.DoneMeansAllWritten | mongoose/mongoose_impl.c:386-417 | a finished upload has written the declared bytes in order, and nothing more if the stream ends there |
| Upload.FragmentationIsIrrelevant | mongoose/mongoose_impl.c:386-417 | two fragmentations of one body give the writer the same bytes and the same outcome |
| Upload.WithoutRoomTheSumWraps | mongoose/mongoose_impl.c:388-390 | for every larger declared length a legal run exists that goes on although everything has arrived |
| Upload.EmptyUploadNeverEnds | mongoose/mongoose_impl.c:386-386 | an upload declared empty writes nothing and never ends |
| WebApi.Connection.DoUploadRead | mongoose/mongoose_impl.c:386-418 | the handler's update in place is the step function of a read during an upload |
| WebApi.Connection.StartUploads | mongoose/mongoose_impl.c:426-467 | likewise for the start of an upload |
| WebApi.Connection.HandleHeaders | mongoose/mongoose_impl.c:714-740 | likewise for a headers event: check, refusal, start of an upload |
| WebApi.Connection.HandleApiCall | mongoose/mongoose_impl.c:665-686 | likewise for the dispatch on the handler's type |
| WebApi.Connection.DispatchRequest | mongoose/mongoose_impl.c:752-804 | likewise for the choice of endpoint |
| WebApi.Connection.UpgradeToWebsocket | mongoose/mongoose.c:25543-25559 | likewise for an upgrade, which detaches the parser in any case and drains the connection when refused |
| WebApi.Connection.HandleMessage | mongoose/mongoose_impl.c:752-829 | likewise for a message event, with the end of a refused request; the message stays in the buffer |
| WebApi.Connection.HandleRead | mongoose/mongoose_impl.c:749-751 | likewise for a read, which feeds an upload |
| WebApi.Connection.HandlePoll | mongoose/mongoose_impl.c:742-748 | likewise for a poll of a pending action |
| WebApi.Connection.HandleClose | mongoose/mongoose_impl.c:420-423 | likewise for the close |
| WebApi.Connection.Arrive | mongoose/mongoose.c:4280-4300 | a read, poll or close goes to the parser's loop first, while there is a parser |
| WebApi.Connection.EndLoop | mongoose/mongoose.c:4386-4392 | the end of the loop removes the completed messages, all at once, unless an upload has left it early |
| WebApiRuns.EveryRunIsSound | mongoose/mongoose_impl.c:714-829 | in every legal run, with chunked bodies and closes in between, an auditor that sees only the effects finds no rule broken, and what it holds is what the mode says |
| WebApiRuns.EffectsAreAuthorised | mongoose/mongoose_impl.c:714-737 | a setter, action starter, custom handler or upload writer only ever ran for a request that an earlier headers event admitted, with a user whose level reaches the levels that the matching handlers ask for the declared body |
| WebApiRuns.ResourcesAreReleasedOnce | mongoose/mongoose_impl.c:402-423 | each OTA context opened and each name stored is released exactly once by the close, however the upload ends, and every write uses the resource that is held |
| WebApiAccess.PassesIffAllowed | mongoose/mongoose_impl.c:714-737 | a request passes the check if and only if it has a user, whose level reaches the read level, and with a body the write level, of the handler that is the first segment behind `/api/` and of the first custom route that matches |
| WebApiAccess.GuardedIffProtected | mongoose/mongoose_impl.c:720-722 | the check is made for URIs that start with `/api/`, for `/websocket` and for custom routes, and for no others |
| WebApiAccess.EffectsNeedLevels | mongoose/mongoose_impl.c:714-737 | in every run a setter, action starter, custom handler or upload writer ran only for a request with a user whose level reaches those levels |
| WebApiAccess.RefusedIffShort | mongoose/mongoose_impl.c:714-740 | in every run a completed request has had one 403 if and only if it has to have a user and has none, or one who falls short of one of those levels |
| WebApiRefusals.RefusedAtMostOnce | mongoose/mongoose_impl.c:714-737 | no request gets two 403 answers, even when its headers are reported again, and a refused one has no privileged effect |
| WebApiRefusals.RefusedExactlyOnce | mongoose/mongoose_impl.c:714-829 | when any request completes, whatever its body turned out to be, it has been refused once if its headers do not pass the check, and never otherwise |
| WebApiRefusals.RefusalIsFinal | mongoose/mongoose_impl.c:826-829 | later events do not change how often a completed request was refused |
| WebApiAnswers.AnsweredAndDoneOnce | mongoose/mongoose_impl.c:714-829 | when a request completes, its setter, starter or custom handler has run exactly once, or never if refused; and it has been answered exactly once in the whole run, or not at all when its answer is left to somebody else, if and only if it was refused or is no firmware upload |
| WebApiAnswers.CompletedIsFinal | mongoose/mongoose_impl.c:742-829 | later events neither answer a completed request again nor repeat what it did, except for the one answer at the end of its action |
| WebApiAnswers.DispatchServes | mongoose/mongoose_impl.c:665-804 | serving one request adds the answers and executions it asks for, and none to any other request |
| WebApiService.BuiltInsAreServed | mongoose/mongoose_impl.c:754-771 | in every run, each of the server's own endpoints gets its own answer and nothing else: 401 for a logout, 200 for the others, an upgrade or 426 and draining for the websocket |
| WebApiService.RoutesAreServed | mongoose/mongoose_impl.c:772-774 | a request of a custom route runs its handler with the whole body, which owns the connection from then on |
| WebApiService.ApisAreServed | mongoose/mongoose_impl.c:665-686 | the API whose name is the first segment gets exactly the effects, in order and with their codes, that its type asks for, with and without a body |
| WebApiService.PagesAreServed | mongoose/mongoose_impl.c:792-803 | anything else is answered as a page |
| WebApiService.ActionsAreAnswered | mongoose/mongoose_impl.c:742-748 | a poll answers a pending action with 200 once it has ended, and does nothing before |
| WebApiService.DeclinedFirmwareIsAnswered | mongoose/mongoose_impl.c:446-448 | a firmware upload that is turned down is admitted, answered with 400 and drained |
| WebApiService.DrainingPollsReportNothing | mongoose/mongoose.c:4280-4300 | on a connection that drains, a poll reports no further message |
| WebApiService.UploadsBeginIff | mongoose/mongoose_impl.c:436-467 | for headers that are not refused, an upload begins, with the buffer to itself, if and only if they are a POST to a file API or to a firmware API whose opener agrees; otherwise, but for firmware turned down, nothing happens to them |
| WebApiService.RefusedRequestEnds | mongoose/mongoose_impl.c:826-829 | with its message a refused request is over, and the connection attends to the next |
| WebApiService.PassedOnRequestEnds | mongoose/mongoose_impl.c:772-774 | a request that is passed on leaves the connection with its owner, and the next may be reported |
| WebApiAnswers.EachReportIsAnswered | mongoose/mongoose_impl.c:443-448 | anywhere in any run, a report of the headers of a firmware upload that is not refused either begins the upload or answers it once more |
| WebApiAnswers.IgnoredAfterUpgrade | mongoose/mongoose_impl.c:679-682 | on a connection that is upgraded, marked for a websocket or somebody else's, a completed message has nothing done, and in the whole run it has one answer of this handler if its headers were refused and none otherwise |
| WebApiAnswers.RightlyAnsweredIff | mongoose/mongoose_impl.c:714-829 | exactly which completed requests have been answered once, or left to somebody else: where the handler attends, all but firmware uploads that are not refused; on an upgraded connection, the refused ones and those to be left to somebody else; on a marked one, only the latter if not refused |
| WebApiUnattended.OwnerIff | mongoose/mongoose_impl.c:772-774 | in every run the connection belongs to a custom handler if and only if a message of a custom route has been served on it |
| WebApiUnattended.PassedOnIff | mongoose/mongoose_impl.c:772-774 | in every run a report or message is passed on unchecked if and only if a message of a custom route was served before, and then nothing else is done with it |
| WebApiUnattended.HandOverNeedsAdmission | mongoose/mongoose_impl.c:714-737 | behind every request that was passed on there is one of a custom route that an earlier headers event admitted, with a user whose level reaches that route's |
| WebApiUnattended.AnythingIsPassedOn | mongoose/mongoose_impl.c:772-774 | behind an admitted request of a route any other in the same packet is passed on, without having been admitted or refused |
| WebApiUnattended.StrangerIsPassedOn | mongoose/mongoose_impl.c:772-774 | so a request without a user for an API of level 7, which would be refused on a connection of its own |
| WebApiUnattended.NothingIsPassedOnIff | mongoose/mongoose_impl.c:714-774 | for a table, no run passes anything on unchecked if and only if no request both passes the check and belongs to a route |
| WebApiUnattended.PipelinedIsNeverAnswered | mongoose/mongoose_impl.c:679-682 | a request in one packet behind a websocket request whose upgrade is refused is not answered, in any continuation of the run |
| WebApiBodies.BodiesAreChecked | mongoose/mongoose.c:4302-4313 | in every run, a body reached a setter, starter or custom handler only for a user who may write it, unless the headers had declared none and the request was chunked or the connection closing |
| WebApiBodies.UploadsAreChecked | mongoose/mongoose_impl.c:714-737 | whatever an upload's writer was given had passed the check of the write level |
| WebApiBodies.WriteLevelIsCheckedIff | mongoose/mongoose.c:4356-4373 | for an admitted request, before a close: every message that is served has passed the check for its body if and only if the headers declared a body, or it is not chunked, or its user may write, or it is a file upload |
| WebApiBodies.WriteLevelAtCloseIff | mongoose/mongoose.c:4310-4313 | at a close, behind an action that held the parser up: if and only if the headers declared a body, or its user may write, or it is a file upload |
| WebApiBodies.NetworkSettingsAreWritten | mongoose/mongoose_impl.c:725-729 | a user of level 3 stores network settings, which take level 7 to write, by sending them in chunks |
| WebApiUploads.OutcomeTracks | mongoose/mongoose_impl.c:381-467 | from any legal run on, with any polls and packets in between, the writer's calls are those of the re-chunker's run over what is in the buffer and what arrives |
| WebApiUploads.UploadIsAnswered | mongoose/mongoose_impl.c:401-417 | from any legal run on, an upload has one 400 if and only if a call of its writer failed, which is then the last call; otherwise it has at most one 200; with its answer it is over and the connection drains |
| WebApiUploads.FailureIsAnsweredAtOnce | mongoose/mongoose_impl.c:404-409 | the failing call is answered with 400 in the event in which it is made |
| WebApiUploads.UploadSucceedsIff | mongoose/mongoose_impl.c:401-417 | the upload is answered with 200 if and only if every call of its writer succeeded and the declared bytes have arrived |
| WebApiUploads.UnparsedIsOnTheWire | mongoose/mongoose.c:4375-4392 | in every run, what the parser has not got through is the last part of what has arrived |
| WebApiUploads.BodyIsOnTheWire | mongoose/mongoose.c:4375-4392 | so is the body of an upload, from its headers to the last byte received |
| WebApiUploads.StreamIsTheBodyIff | mongoose/mongoose_impl.c:452-463 | the re-chunker is given as many bytes too many in front as completed messages are in the buffer, and then the body |
| WebApiUploads.TheBodyIsWritten | mongoose/mongoose_impl.c:381-467 | from any legal run with no completed message in the buffer, the writer gets exactly the body, in whatever pieces it arrives, and the connection ends draining |
| WebApiUploads.UploadsAgree | mongoose/mongoose_impl.c:381-467 | two such runs that receive the same body differently cut give the writer the same bytes |
| WebApiPipelining.TheBodyIsWrittenIff | mongoose/mongoose.c:4389-4389 | the writer gets the body that is sent, for every body and every way it arrives, if and only if no completed message is in the buffer at the headers |
| WebApiPipelining.OnePacketIsCorrupted | mongoose/mongoose_impl.c:452-463 | for every page request and upload in one packet, what is written starts with the end of their headers |
| WebApiPipelining.TwoPacketsAreFine | mongoose/mongoose_impl.c:452-463 | the same two requests in two packets write the body alone |
| JsonText.UnescapeEscape | mongoose/mongoose.c:4786-4814 | unescaping an escaped buffer gives its C string, as far as there is room |
| JsonText.EscapeIsPassed | mongoose/mongoose.c:4496-4508 | the closing quote of an escaped string is found where it was printed, for every content |
| JsonText.DecimalValue | mongoose/mongoose.c:2412-2432 | the printed digits of a number have its value |
| JsonText.EscapesOfJson | mongoose/mongoose.c:4474-4494 | the letters of escapes are those of section 7 of RFC 8259, and no others are known |
| JsonText.HexEscapeIsRead | mongoose/mongoose.c:4793-4800 | four hexadecimal digits of either case are read as the byte that they write; more than a byte ends the string |
| JsonText.HexDigitIff | mongoose/mongoose.c:4793-4800 | exactly the decimal digits and the letters a to f of either case are hexadecimal digits |
| JsonText.UnknownEscapeStops | mongoose/mongoose.c:4801-4806 | an escape with any other letter ends the string |
| JsonText.FractionIsShifted | mongoose/mongoose.c:4529-4537 | the digits behind the point, times the power of ten of their count, are their value as a number |
| JsonText.MantissaIsParsed | mongoose/mongoose.c:4510-4537 | sign, whole part and fraction are consumed in front of anything but a digit, and are worth that number |
| JsonText.NumberIsParsed | mongoose/mongoose.c:4510-4567 | a number in decimal notation is consumed to its last character, and its value is what its digits say: the whole part, and the digits behind the point over the power of ten of their count |
| JsonText.IntIsParsed | mongoose/mongoose.c:4510-4567 | a printed integer is read back as itself |
| JsonText.PlusIsSkipped | mongoose/mongoose.c:4514-4519 | a plus in front changes nothing but the length |
| JsonText.ExponentIsParsed | mongoose/mongoose.c:4540-4562 | an exponent of either sign multiplies or divides by the power of ten that its digits say, at most 308 |
| JsonText.Scaled | mongoose/mongoose.c:4552-4561 | the loop that squares its base computes the multiplication by that power |
| JsonScan.JsonGet | mongoose/mongoose.c:4618-4759 | the loop computes the scan, and what it finds lies inside the text |
| JsonLookup.ValueIsScanned | mongoose/mongoose.c:4648-4745 | a value of any shape, nested as deep as the scanner allows and with blanks anywhere, is passed as a whole |
| JsonLookup.LookupFindsTheField | mongoose/mongoose.c:4618-4759 | in the text of any object, with values nested to any such depth, blanks anywhere and names repeated, looking up a name gives the text of the value of the first field with it, character by character, and nothing when no field has it |
| JsonGrammar.LocateIsTheGrammar | mongoose/mongoose.c:4618-4759 | on every text, well formed or not, the one-pass scanner finds what a grammar read by recursive descent finds: the value of the first field with the name, if all in front of it is well formed, with at most 30 brackets open and commas allowed in front of closing brackets, and else nothing |
| JsonGrammar.ValueAgrees | mongoose/mongoose.c:4655-4701 | at any point of a scan a value is passed as a whole if the grammar knows it, and nothing is found otherwise |
| JsonGrammar.FieldsAgree | mongoose/mongoose.c:4703-4751 | so is the rest of an object |
| JsonGrammar.ItemsAgree | mongoose/mongoose.c:4667-4680 | and the rest of an array |
| JsonStruct.PrintStruct | mongoose/mongoose_impl.c:486-509 | prints the members in table order, separated by commas, and returns the number of characters printed |
| JsonStruct.PopulateStruct | mongoose/mongoose_impl.c:511-532 | updates the struct in place as the specification says |
| JsonStruct.OnlyPresentFieldsChange | mongoose/mongoose_impl.c:511-532 | for any text at all, no byte outside the fields of attributes found in it changes |
| JsonStruct.EachFieldOnItsOwn | mongoose/mongoose_impl.c:511-532 | each field is populated from its own token and its own bytes, whatever the other attributes do |
| JsonStruct.PopulatingMeans | mongoose/mongoose_impl.c:511-532 | from the text of any object, with nested values, blanks and its fields in any order, repeated or absent, each field of the struct gets the meaning of the first field with its name; a value of another type leaves it alone, and without a field it keeps its bytes |
| JsonStruct.PrintThenPopulate | mongoose/mongoose_impl.c:486-532 | populating any memory from a printed struct restores every integer exactly, every truth value as 0 or 1, and every string cut to fit and terminated |
| JsonStruct.WritingBackChangesNothing | mongoose/mongoose_impl.c:534-551 | populating a struct from its own text changes no byte |
| JsonStruct.PopulatedPrintsTheSame | mongoose/mongoose_impl.c:486-532 | a struct populated from another's text prints that same text |
| JsonStruct.WordOfInt | mongoose/mongoose_impl.c:521-522 | storing the value of four bytes gives back the four bytes |
| JsonStruct.IntOfWord | mongoose/mongoose_impl.c:521-522 | every 32-bit integer is stored so that it is read back |
| JsonStruct.LittleEndian | mongoose/mongoose_impl.c:521-522 | the lowest byte of an integer comes first |
| JsonStruct.ToIntIsTowardsZero | mongoose/mongoose_impl.c:521-522 | a number in range is stored as the integer next to it on the side of zero |
| JsonStruct.ToIntSaturates | mongoose/mongoose_impl.c:521-522 | a number out of range is stored as the largest or smallest integer, as the processor converts it |
| JsonStruct.CopiedStringIsCut | mongoose/mongoose_impl.c:525-529 | a string is stored whole if it leaves room for its end, or else cut to leave that room |
| JsonStruct.BadEscapeLeavesTheRest | mongoose/mongoose.c:4801-4813 | a string with an unknown escape is stored up to it without an end, and the bytes behind stay |
| PrintArray.Print | mongoose/mongoose_impl.c:553-577 | terminates and prints the bracketed, comma-joined elements of the requested range cut at the array's end, or the bare element or `null`, and returns the number of characters |
| PrintArray.PagesOfTheAnswerCompose | mongoose/mongoose_impl.c:567-576 | two neighbouring pages joined by a comma are the page over both |
| PrintArray.TheAnswerIsJson | mongoose/mongoose_impl.c:553-577 | a range is answered with the JSON array of exactly the elements it selects, in order; a single index with that element, or with `null` behind the end |
| Version.Device.HandleObject | mongoose/mongoose_impl.c:534-551 | the counter is bumped exactly when populating changes the copy, which the setter then stores |
| Version.Device.HandleArray | mongoose/mongoose_impl.c:579-601 | likewise for one array element; an index past the end changes nothing |
| Version.Device.UpdateState | mongoose/mongoose_impl.c:688-690 | the application's own bump, modulo 2^32 |
| Version.SameVersionIff | mongoose/mongoose_impl.c:769-771 | two answers carry the same version if and only if the changes between them are a multiple of 2^32 |
| Version.SameVersionSameData | mongoose/mongoose_impl.c:769-771 | same version, less than one wrap apart: no write in between changed any data set or element, not even for a while |
| Version.WhenTheCounterMovesForNothing | mongoose/mongoose_impl.c:542-544 | the counter moves without a change of data exactly for writes without a setter that ask for a change, and for the application's bump |
| Version.ObjectCountsIff | mongoose/mongoose_impl.c:534-545 | a write to a data set advances the counter if and only if its text gives some field a value that the set does not hold |
| Version.ElementCountsIff | mongoose/mongoose_impl.c:584-596 | likewise for an array element, if there is such an element |
| Version.ObjectIsStored | mongoose/mongoose_impl.c:542-551 | after the write each field of a data set with a setter holds what the text says, and without one what it held |
| Version.ElementIsStored | mongoose/mongoose_impl.c:590-600 | likewise for each field of the element |
| Version.WritesStayLocal | mongoose/mongoose_impl.c:534-601 | a write touches nothing but the set or element it addresses; the application's bump moves the counter by one and no data |
| Version.EchoDoesNotCount | mongoose/mongoose_impl.c:534-551 | a client that sends back the text it was given does not move the counter |
| Version.ElementEchoDoesNotCount | mongoose/mongoose_impl.c:584-596 | nor does one that sends back the text of an element |
| FileStream.FileConnection.constructor | mongoose/mongoose_impl.c:644-663 | the start of a stream, with no name stored for an empty file name |
| FileStream.FileConnection.Handle | mongoose/mongoose_impl.c:615-642 | the update in place is the step function of the event |
| FileStream.ExactlyTheRequestedBytes | mongoose/mongoose_impl.c:615-642 | for every pattern of short reads and network progress, the connection carries the reply and then the requested slice in order, all of it once it drains, and the name is freed exactly once |
| FileStream.SendBufferIsBounded | mongoose/mongoose_impl.c:619-625 | the send buffer never exceeds what it started with or 255 + 512 bytes |
| FileStream.EveryReadMakesProgress | mongoose/mongoose_impl.c:621-638 | the stream drains on the first effective event after the requested bytes at the latest, and every effective event before it carries a byte |
| FileStream.RequestIsServed | mongoose/mongoose_impl.c:644-663 | a request for a range of a named file, once it drains, has sent the reply and that range of the file |
| FileStream.AnyReadIsPossible | mongoose/mongoose_impl.c:622-629 | the reader may return any number of the bytes asked for but none |
| FileStream.EmptyNameStreamsNothing | mongoose/mongoose_impl.c:658-659 | for an empty name nothing is ever sent after the reply, and the connection never drains |
| FileStream.DrainsIffNamed | mongoose/mongoose_impl.c:644-663 | a stream that nobody closes drains on some run if and only if the request names a file |
| Actions.Action.HandleAction | mongoose/mongoose_impl.c:469-484 | start or query, over the shared deadline |
| Actions.Action.OnPoll | mongoose/mongoose_impl.c:742-748 | the poll of a waiting connection |
| Actions.SoundRun | mongoose/mongoose_glue.c:24-31 | the deadline is a second after the latest start of any connection, and so at least a second after the start of each that waits |
| Actions.ExactlyOneCompletion | mongoose/mongoose_impl.c:742-748 | a waiting connection gets exactly one completion reply, at its first poll after the shared deadline, never earlier than a second after its own start, whatever the others start |
| Actions.CompletionsMatchStarts | mongoose/mongoose_impl.c:469-484 | over any run each accepted start is completed once, cut short by a close, or still waiting |
| Actions.QueriesTellTheTruth | mongoose/mongoose_impl.c:476-483 | a query is answered at once, with whether the deadline is still ahead |
| Actions.LateStartIsAnswered | mongoose/mongoose_impl.c:469-475 | a start whose action has ended by the time it is checked is answered at once |
| Users.Logins.Login | mongoose/mongoose_impl.c:315-345 | the search and the insertion are the function `Authenticate` of the request's credentials |
| Users.Logins.Find | mongoose/mongoose_impl.c:327-329 | the loop finds the newest entry with the name, or with the token |
| Users.EntriesStay | mongoose/mongoose_impl.c:330-336 | through any run of logins the list before is the end of the list after |
| Users.NamesStayDistinct | mongoose/mongoose_impl.c:327-336 | while names have fewer than 32 characters no two entries share a name |
| Users.SecondLoginAddsNoneIff | mongoose/mongoose_impl.c:327-336 | logging in again yields the first entry and adds none exactly for names of fewer than 32 characters; each login of a longer name adds an entry |
| Users.GrantedLevelIff | mongoose/mongoose_impl.c:325-345 | a password login yields an entry of the level just granted if and only if no entry has its name yet, or the entry has that level |
| Users.PrefixBorrowsTheEntry | mongoose/mongoose_impl.c:330-336 | a user whose name is the first 31 characters of a longer one that logged in before gets that entry, with its token and level |
| Users.GrantedLevelIsGiven | mongoose/mongoose_impl.c:315-345 | while names have fewer than 32 characters and one level each, every password login of any run yields the level granted |
| Users.TokensStayDistinct | mongoose/mongoose_impl.c:333-335 | with fresh tokens no two entries share a token |
| Users.TokenStandsForItsUser | mongoose/mongoose_impl.c:338-342 | a token in a cookie or query resolves to the same user for the rest of the run |
| Users.BearerTokensAreNotLookedUp | mongoose/mongoose.c:4086-4087 | a Bearer token works if and only if the firmware accepts it as the password of a user without a name |
| Users.BasicIsAccepted | mongoose/mongoose.c:4070-4084 | a Basic header within the buffers logs in if and only if there is a password and the firmware accepts the pair, user first; the entry then has that name |
| Users.LongBasicIsCut | mongoose/mongoose.c:4070-4084 | longer names and passwords are cut to 99 characters |
| Users.UnreadableIsNobody | mongoose/mongoose.c:4070-4084 | a Basic header without a colon is nobody, whatever else the request carries |
| Users.OtherHeaderTakesTheToken | mongoose/mongoose.c:4086-4094 | behind any other header, or a Bearer header without a token, the token of the cookie or query is taken for a password |
| Users.CookieThenQuery | mongoose/mongoose.c:4088-4094 | without a header an entry is looked up by the token of the cookie, or of the query if there is no Cookie header, and nobody is added |
| OtaBoot.Target.BootCheck | mongoose/mongoose.h:4201-4213 | the macro, with its rollback and second reset, is the function `Booted` |
| OtaBoot.Target.FlashEnd | mongoose/mongoose.c:2261-2295 | the end of an update: state, swap and the boot that follows |
| OtaBoot.Target.OtaPoll | mongoose/mongoose.c:10058-10073 | one poll: feed, commit or nothing |
| OtaBoot.InstallsAreAccountedFor | mongoose/mongoose.h:4201-4213 | in every run each install is undone once, kept, overtaken or open, so rollbacks never outnumber installs; a rollback is due exactly while one is open and restores the image from before it, if intact |
| OtaBoot.SettledFirmwareStays | mongoose/mongoose.h:4160-4170 | committed or rolled-back firmware is not swapped out by anything but the next install |
| OtaBoot.UncommittedIsUndone | mongoose/mongoose.h:4164-4167 | new firmware not committed before the next reset is rolled back, to what the spare bank holds by then: the old image if no failed update came in between, and only then unless an update brought the same image |
| OtaBoot.CommittedStays | mongoose/mongoose.h:4161-4161 | firmware committed while on probation stays until the next install |
| OtaBoot.PollsDoNothing | mongoose/mongoose.c:10062-10073 | in every run with a boot check after each reset, a poll neither feeds the watchdog nor commits |
| OtaBoot.WhenAPollCommits | mongoose/mongoose.c:10062-10069 | a poll commits exactly in the testing state after the window with a confirming server, which no boot check leaves behind |
| OtaBoot.ArmedSinceInstall | mongoose/mongoose.h:4201-4213 | in every run the watchdog is armed if and only if an install came after the last reset, and so whenever firmware is on probation |
| Uart.Driver.RxCallback | Board/board.c:145-157 | the interrupt puts each byte in front of the queue, or drops it when 256 are pending |
| Uart.Driver.ReceiveBytes | Board/board.c:114-128 | returns the front bytes in the order taken, into the buffer and nowhere else, and ends on the wrapped tick difference exactly when the timeout has passed |
| Uart.Driver.Poll | Board/board.c:121-124 | one look at the queue takes its front byte, after whatever the interrupt has put there |
| Uart.Driver.FlushQueue | Board/board.c:136-144 | everything pending is discarded |
| Uart.Driver.Available | Board/board.c:130-134 | the number of pending bytes |
| Uart.Elapsed | Board/board.c:118-118 | the wrapping tick difference is the time that has passed, also across the wrap |
| Uart.EveryRunAccounts | Board/board.c:114-157 | under every interleaving every delivered byte is in one place, at most 256 are pending, and the queue is a stack |
| Uart.EachByteOnce | Board/board.c:114-157 | each delivered byte is exactly one of pending, returned, flushed or dropped, once |
| Uart.DeliverOneAccounts | Board/board.c:148-150 | a byte is dropped exactly when 256 are pending |
| Uart.ReceiveResult | Board/board.c:114-128 | a receive returns at most the length asked for, if that is not zero |
| Uart.ResultIsWithinLenIff | Board/board.c:121-124 | the result never exceeds the length if and only if the length is at least one |
| Uart.BurstComesBackReversed | Board/board.c:149-149 | a burst into an empty queue is received in reverse, so it is received as sent if and only if it is a palindrome |
| Uart.FlushDiscards | Board/board.c:136-144 | a flush discards all that is pending and touches nothing else |
| Uart.ReceiveStops | Board/board.c:114-128 | a receive ends at its length or at its timeout and not before: all that arrived until then was delivered in order, each turn took one byte or waited one tick in vain, and none began once the timeout was over |
| Heap.Allocator.Sbrk | Core/Src/sysmem.c:54-80 | the allocator with its wrapping pointer comparison |
| Heap.CallAt | Core/Src/sysmem.c:54-80 | in a run, a call that does not fit fails and changes nothing; another returns the old end and moves it |
| Heap.EndIsTheSum | Core/Src/sysmem.c:54-80 | without wrap, the end of the heap is `_end` plus what was granted, never past the stack's reserve |
| Heap.BlocksTile | Core/Src/sysmem.c:69-79 | with increments that are not negative the blocks are disjoint and tile the heap in order |

## Left out

- JsonStruct.PrintThenPopulate: says of a double that the bytes stored are those of the decimal number that was printed, and not that these are the bytes it was printed from, because printing with `%.5f` rounds; `inf`, `nan` and exponents in printed doubles are not modelled.
- JsonStruct.WritingBackChangesNothing: needs a struct without doubles, for the same reason, with truth values 0 or 1 and strings that end inside their fields.
- JsonStruct.PopulatedPrintsTheSame: needs a struct without doubles and with strings that end inside their fields.
- OtaBoot.InstallsAreAccountedFor: starts from firmware that is not on probation and has no power-on reset, which clears the register and so forgets a pending rollback.
- Uart.Driver.ReceiveBytes: assumes that fewer ticks pass between two looks at the clock than would take it around past the timeout, and a buffer of at least one byte, which a call for no byte does not promise.
- Actions.ExactlyOneCompletion: assumes a clock that does not run backwards and no new request on a connection whose answer is outstanding.
- Upload.FragmentationIsIrrelevant: assumes that the receive buffer stays within its documented 3 MB and that the declared length leaves that much room below 2^32.
- Upload.DoneIff: assumes the same.
- WebApiUploads.UploadSucceedsIff: assumes the same.
- WebApi assumes what the HTTP parser does: headers may be reported again until their message, not while a response is outstanding; between two such reports the URI, the lengths of the headers and of the declared body, the framing and the answer of the authentication stay the same. Requests that the parser itself turns down (malformed, or without a length where one is needed) and `Connection: close` are not modelled.
- WebApiBodies.WriteLevelAtCloseIff: takes an action as the first request of the connection, which is one way to hold the parser up until the close.
- WebApiPipelining.TheBodyIsWrittenIff: is about uploads that Upload.FragmentationIsIrrelevant is about, of which no more has arrived than their body.
- StarFaults.ExactIffClear: decides patterns without `?`; those that mix `?` with `*` are not decided, because then it depends on how the literals between the wildcards overlap. Without `*` they are exact.
- What custom handlers do with a connection, websocket messages and their timers, TLS, static pages (an immediate reply here), cookies' text and logging.
- The captures of `mg_match`, URL decoding and the parsing of ranges in URIs and queries; ranges and names are parameters.
- Array indices in JSON paths, which attribute names do not contain; doubles as reals without rounding in `mg_atod`.
- Fields of attributes with string size zero, for which the printer falls back to the C string's length.
- The linked list of users and of custom routes as pointers: both are sequences here. Running out of memory, except where an upload's name or an OTA context is refused.
- The order in which an interrupt strikes inside one queue operation: FreeRTOS makes these atomic. The range check of UART numbers.
- Flash programming, checksums and signatures behind `mg_ota_write` and `mg_ota_end`: an update is valid or not.
- HTTP parsing, TCP, Modbus, shell, Zigbee, USB and HAL code.
