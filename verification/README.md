# go-httpbin: verified models of its stateful cores

A Dafny model of the parts of go-httpbin that keep state or that write something another
part has to read back, with proofs about every input and every run. `dafny verify dfyconfig.toml`
checks the whole project.

| files | what they model |
|---|---|
| `WsFrame`, `WsServer`, `WsConn` | the WebSocket codec, frame validation, fragmentation and the serve loop (RFC 6455) |
| `WsTrace`, `WsResults`, `WsLimits` | what RFC 6455 says an echo server sends, the proof that the loop sends it, and what follows for a client |
| `WsText`, `WsHandler`, `WsWire` | exactly which text messages are accepted, what the loop does with any handler, and what a client reads of the bytes |
| `Utf8` | UTF-8 validity (section 4 of RFC 3629), equal to being an encoding of scalar values |
| `RateLimiter`, `RateLimiterRuns`, `RateLimiterBounds` | the per-IP limiter as a class, whole runs of it, and what eviction can change |
| `Paths`, `Pipeline`, `PipelineTables` | path cleaning, the pipeline parser and printer, and the tables that ship |
| `PipelineRedirect`, `PipelineDelays`, `PipelineBudget`, `Writers` | redirect chains, delay validation and the delay budget in int64, and the stack of response writers under a status override |
| `Pdf`, `PdfReader`, `PdfTheorem` | the PDF writer, a reader that navigates by offsets (sections 7.3.8, 7.5.4 and 7.5.5 of ISO 32000-1), and the round trip |
| `Base64`, `Cache`, `SyntheticStream`, `Pacing` | the flexible base64 decoder (RFC 4648), the bounded cache under concurrent requests, the seekable stream, and the paced writers |
| `Bytes`, `Int64`, `Decimal` | shared: bytes and big-endian integers, wrap-around, decimal numerals |

Code that changes state is modelled by methods and classes, each proved equal to a function;
the properties are lemmas about those functions. Concurrent code is a sequence of steps, one
for each critical section, in any order. Clocks, random draws, map iteration order, the life of
a request context and the patience of a client are parameters.

## Main results

* `WsTrace.ServeIsConversation`: on every byte stream, the loop sends exactly the conversation
  that the RFC describes by looking back over the frames. `WsResults` draws the consequences:
  one Close frame and it is the last, one Pong per Ping, and a client that reassembles what it
  gets has the messages it sent; `WsWire.ServeEcho` states the last for the bytes on the connection.
* `WsLimits.NeverStuckIff`: the response framing in the code never advances its offset. The loop
  answers every input if and only if the two limits are equal, or the fragment limit is 0.
* `WsText.TextIsEchoedIff`: a valid text message is echoed if and only if no fragment begins inside
  a character. `WsHandler.RefusesOnlyInterleavedIff`: the loop refuses messages without reason if
  and only if its handler is silent about some message that can be delivered.
* `WsFrame.DecodeAllClientStream` and `DecodeAllSplits`: the codec is a bijection between lists of
  client frames and the inputs that are read.
* `RateLimiterRuns.ExpiryIsInvisibleIff`: forgetting idle clients never changes a decision if and
  only if burst >= 1 and rate * lifetime >= burst.
* `Pipeline.ParseIff` and `ParsePrintParse`, `PipelineRedirect.RedirectChain`: the parser accepts
  exactly a declaratively given language, printing and parsing are inverse, and every redirect chain
  takes exactly its count of steps, each Location being read back by the parser.
* `PipelineBudget.BudgetHoldsIff`: no URL makes a request sleep longer than the maximum if and only
  if nine times the maximum fits int64.
* `PdfTheorem.ReadsBack`: a reader that follows only offsets gets every page's content back.
* `Writers.ClientSeesOverrideIff`: when a status override reaches the client.
* `Base64.FlexibleIff`: the order in which the four encodings are tried makes no difference.

## Where code and documentation disagree

The model follows the code.

* `frameResponse` is documented to split a message (websocket.go:372-373), but its loop never
  advances `offset` (websocket.go:383-402). Both are modelled: `WsServer.FrameResponse` as written,
  `WsServer.SplitResponse` as documented, and `WsLimits.AsWrittenIsDocumented` relates the two.
* Text is checked fragment by fragment (websocket.go:190, 201), which refuses legal messages cut
  inside a character: `WsLimits.CutCharacterIsRefused` is an input. A text message is accepted if
  and only if each fragment is valid (`WsText.TextAcceptedIff`), and a valid one is echoed if and
  only if it is cut between characters (`WsText.TextIsEchoedIff`).
* A nil response of a handler leaves the finished message in place (websocket.go:227-235), so that
  the next one is refused. No run does this if and only if the handler never returns nil for a
  message the loop can deliver (`WsHandler.RefusesOnlyInterleavedIff`).
* Length forms longer than necessary are accepted, against section 5.2 of RFC 6455:
  `WsFrame.OverlongIsRead` is an input, `WsFrame.OverlongIff` says exactly which headers these are.
* Terminals of two segments are said to consume no further arguments (pipeline.go:211), but keep
  all that is left (pipeline.go:212-214): `PipelineTables.ExtraArgumentIsKept` is an input, and
  `Pipeline.TwoSegmentArguments` says that they get none if and only if nothing follows.
* `Seek` with `io.SeekEnd` counts backwards (helpers.go:464-465), against the contract of io.Seeker:
  `SyntheticStream.SeekIsStandardIff`.
* The limiter takes an empty key for "none found" (ratelimit.go:118) and then outgrows its bound:
  `RateLimiter.EmptyKeyBreaksCapacity`.
* A status override is lost when the handler flushes before it writes (pipeline.go:407-411):
  `Writers.ClientSeesOverrideIff`.

## Model

| member | source | states |
|---|---|---|
| WsFrame.ShortestForm | httpbin/websocket/websocket.go:326-347 | no length form of section 5.2 that can hold the length is shorter than the one writeFrame picks |
| WsFrame.BitwiseHead | httpbin/websocket/websocket.go:307-321 | the first byte is the OR of FIN, RSV1-3 and the opcode |
| WsFrame.BitwiseFields | httpbin/websocket/websocket.go:249-259 | the fields nextFrame takes out of a byte are its bits, and the mask bit is the top one |
| WsFrame.MaskTwice | httpbin/websocket/websocket.go:292-294 | masking with the repeated 4-byte key undoes itself |
| WsFrame.DecodeClientBytes | httpbin/websocket/websocket.go:240-304 | reading what a client wrote gives the frame back, for every key and length form, and stops exactly at its end |
| WsFrame.DecodeIsClientBytes | httpbin/websocket/websocket.go:240-304 | whatever is read was the client encoding of the frame returned; nothing else is accepted |
| WsFrame.DecodeAllClientStream | httpbin/websocket/websocket.go:240-304 | reading repeatedly returns exactly the list of frames sent and goes on at the byte after them |
| WsFrame.DecodeAllSplits | httpbin/websocket/websocket.go:240-304 | every input is a list of client frames and a tail in which no frame can be read |
| WsFrame.WriteThenRead | httpbin/websocket/websocket.go:240-355 | writeFrame's bytes with mask bit, key and masked payload are read back as the same frame, in all three length forms |
| WsFrame.WriteThenReadAll | httpbin/websocket/websocket.go:240-355 | the same for any list of frames, each with its own key: exactly that list is read, up to the byte after it |
| WsFrame.OverlongIff | httpbin/websocket/websocket.go:263-280 | a frame read takes more bytes than the shortest form if and only if its length is in a form too long for it |
| WsFrame.OverlongIsRead | httpbin/websocket/websocket.go:263-280 | an empty message in the 16-bit form is read |
| WsServer.SplitIsFragmentation | httpbin/websocket/websocket.go:372-404 | the documented split: payloads concatenate to the message, sizes respect the limit, first opcode, continuations, FIN on the last only |
| WsServer.FrameResponse | httpbin/websocket/websocket.go:374-404 | as written: returns one final frame if and only if the payload fits one fragment, otherwise repeats the first fragment without FIN for any number of rounds |
| WsServer.SplitResponse | httpbin/websocket/websocket.go:372-404 | with the offset advanced the loop ends and produces the documented split |
| WsConn.Conn.ReadFull | httpbin/websocket/websocket.go:241-244 | the bytes asked for, or EOF or unexpected EOF, consuming nothing else |
| WsConn.Conn.NextFrame | httpbin/websocket/websocket.go:240-304 | reads and consumes exactly what the decoder specifies, with its error cases |
| WsConn.Conn.ReadLength | httpbin/websocket/websocket.go:263-280 | the 7, 16 or 64 bit length |
| WsConn.Conn.ReadPayload | httpbin/websocket/websocket.go:282-294 | key and payload, unmasked |
| WsConn.Unmask | httpbin/websocket/websocket.go:292-294 | XORs the buffer in place with the repeated key |
| WsConn.HeadBits | httpbin/websocket/websocket.go:307-321 | the OR of bits is the head byte the codec theorems are about |
| WsConn.LengthBytes | httpbin/websocket/websocket.go:326-347 | the length in its form |
| WsConn.Conn.WriteFrame | httpbin/websocket/websocket.go:306-355 | appends the encoded frame, as far as the peer still accepts bytes |
| WsConn.Conn.WriteCloseFrame | httpbin/websocket/websocket.go:359-370 | appends a Close frame with code and reason |
| WsConn.HandleFrame | httpbin/websocket/websocket.go:181-236 | one pass of the loop body: sent bytes, next message state and exit |
| WsConn.ServeLoop | httpbin/websocket/websocket.go:166-238 | what reaches the peer is the run's frames, cut where writing fails; result for every input, handler and context lifetime |
| WsTrace.StepIsResponse | httpbin/websocket/websocket.go:181-236 | the loop's one-message state agrees, frame by frame, with looking back over all frames received |
| WsTrace.ServeIsConversation | httpbin/websocket/websocket.go:166-238 | for every input the frames sent and the ending are those sections 5.4 and 5.5 of RFC 6455 describe |
| WsResults.EchoEndToEnd | httpbin/websocket/websocket.go:166-355 | the same from the client's frames, whatever keys and length forms it chose |
| WsResults.OneCloseFrame | httpbin/websocket/websocket.go:166-238 | exactly one Close frame, last, unless cancelled or stuck, and then none |
| WsResults.PongsMirrorPings | httpbin/websocket/websocket.go:210-215 | one Pong per Ping answered, in order, same payload |
| WsResults.ReceiveSplit | httpbin/websocket/websocket.go:372-404 | reassembling the split of a message gives the message, type included |
| WsResults.EchoesMirrorMessages | httpbin/websocket/websocket.go:185-236 | a client that reassembles what it gets has exactly the messages it completed, in order and with their types |
| WsResults.AssembledIsBounded | httpbin/websocket/websocket.go:185-224 | in every reachable state the message under way is within the limit, and text is UTF-8 as a whole |
| WsLimits.ChosenLimits | httpbin/handlers.go:1514-1552 | accepted limits satisfy fragment <= message <= body limit |
| WsLimits.NeverStuckIff | httpbin/websocket/websocket.go:383-402 | the loop as written answers every input if and only if the limits are equal or the fragment limit is 0 |
| WsLimits.FullThenOneIsStuck | httpbin/websocket/websocket.go:383-402 | a full fragment and one more byte hang the loop |
| WsLimits.AdvancingNeverStuck | httpbin/websocket/websocket.go:372-404 | with the offset advanced no input hangs the loop |
| WsLimits.AsWrittenIsDocumented | httpbin/websocket/websocket.go:372-404 | what the code sends is a prefix of what the documented split would send, and all of it unless it hangs |
| WsLimits.CloseFrameIsLegal | httpbin/websocket/websocket.go:359-370 | every Close frame with a reason of the server passes the server's own validation (125 bytes, valid code, UTF-8) |
| WsLimits.EverythingSentIsLegal | httpbin/websocket/websocket.go:166-471 | every frame sent to any client passes that validation |
| WsLimits.CutCharacterIsRefused | httpbin/websocket/websocket.go:190-203 | an input: valid text cut inside a character is refused |
| WsText.FaultInside | httpbin/websocket/websocket.go:181-236 | what each frame of a legal message leads to, control frames in between and fragments of any size |
| WsText.TextAcceptedIff | httpbin/websocket/websocket.go:190-203 | a text message is accepted if and only if each fragment is valid UTF-8 on its own |
| WsText.PiecesValidIff | httpbin/websocket/websocket.go:190-203 | for a valid text this means that every cut falls between characters |
| WsText.TextIsEchoedIff | httpbin/websocket/websocket.go:166-238 | a client that sends one valid text message gets it back if and only if it has cut it between characters, and is refused otherwise |
| WsHandler.ServeIsFrames | httpbin/websocket/websocket.go:166-238 | for every handler the loop on bytes is the loop on the frames read from them |
| WsHandler.StepKeepsCurrent | httpbin/websocket/websocket.go:185-236 | with a handler that is never silent, the stored message is the unfinished one and can be delivered |
| WsHandler.SilenceIsRefused | httpbin/websocket/websocket.go:227-235 | whatever deliverable message a handler is silent about, some client is refused for following it with another |
| WsHandler.RefusesOnlyInterleavedIff | httpbin/websocket/websocket.go:186-235 | for every handler: no run refuses a message for following a completed one if and only if the handler is never silent about a message the loop can deliver |
| WsHandler.SilenceKeepsMessageOpen | httpbin/websocket/websocket.go:227-235 | after a completed message that does not end the loop, the next one is refused if and only if the handler was silent |
| WsWire.ServerFramesAreRead | httpbin/websocket/websocket.go:306-355 | a client that reads unmasked frames reads exactly the frames written |
| WsWire.BytesMirrorMessages | httpbin/websocket/websocket.go:166-355 | from the bytes of a conversation a client reassembles exactly the messages it completed |
| WsWire.ServeEcho | httpbin/handlers.go:1548-1557 | on a connection, unless writing fails, what has reached the client reassembles to the messages it completed |
| Utf8.CutIff | httpbin/websocket/websocket.go:190-203 | cutting valid text leaves a valid front part exactly when no continuation byte follows the cut |
| Utf8.ValidConcat | httpbin/websocket/websocket.go:201-204 | validity is closed under concatenation |
| Utf8.ValidIffEncoded | httpbin/websocket/websocket.go:190 | bytes are valid exactly when they encode some list of scalar values |
| RateLimiter.Limiter.Allow | httpbin/ratelimit.go:70-96 | decision and new map of a request, for any map iteration order |
| RateLimiter.Limiter.EvictExpired | httpbin/ratelimit.go:98-105 | keeps exactly the entries seen since the cutoff |
| RateLimiter.Limiter.EvictOldest | httpbin/ratelimit.go:107-121 | removes an entry with minimal lastSeen, in any iteration order, except the empty key |
| RateLimiter.Limiter.Cleanup | httpbin/ratelimit.go:123-140 | one tick of the cleanup goroutine |
| RateLimiter.RequestTouchesOnlyItsKey | httpbin/ratelimit.go:70-121 | other buckets are unchanged or deleted, and only for being idle too long or oldest |
| RateLimiter.RequestKeepsCapacity | httpbin/ratelimit.go:77-91 | a request keeps the map within bounds if and only if the entry to evict is not the one with the empty key |
| RateLimiter.EmptyKeyBreaksCapacity | httpbin/ratelimit.go:107-121 | with the empty key the bound is exceeded |
| RateLimiterRuns.StepAgrees | httpbin/ratelimit.go:27-39 | the invariant that ties the limiter to one that never forgets: what was forgotten is full |
| RateLimiterRuns.RunAgrees | httpbin/ratelimit.go:70-105 | every run without eviction of the oldest decides like a limiter that never forgets |
| RateLimiterRuns.ExpiryIsInvisibleIff | httpbin/ratelimit.go:70-140 | and this holds of all runs if and only if burst >= 1 and rate * lifetime >= burst |
| RateLimiterBounds.EvictionNeverCosts | httpbin/ratelimit.go:98-121 | whatever is evicted, no key is granted fewer requests than by a limiter that never forgets |
| RateLimiterBounds.ReachableIsSound | httpbin/ratelimit.go:27-39 | in every reachable state tokens lie in [0, burst] and lastSeen equals lastRefill |
| RateLimiterBounds.RunKeepsCapacity | httpbin/ratelimit.go:70-121 | with non-empty keys no run outgrows the bound |
| RateLimiterBounds.TokenBucketBound | httpbin/ratelimit.go:27-39 | between evictions at most burst + rate * (t - s) of a key's requests are granted |
| RateLimiterBounds.BoundAcrossExpiry | httpbin/ratelimit.go:27-105 | if keys are remembered until their bucket is full, the bound holds over any stretch of any run without eviction of the oldest, however often the key expires |
| RateLimiterBounds.PatientClientIsServed | httpbin/ratelimit.go:27-39 | a call at least 1/rate after the key's previous one is granted, whatever came in between |
| Paths.SegmentsOfRooted | httpbin/pipeline.go:140-156 | the segments of a rooted path are never empty, "." or "..", and are those path.Clean leaves |
| Paths.SegmentsOfPrint | httpbin/pipeline.go:140-156 | printing plain segments and splitting the path gives them back |
| Pipeline.ParsePipeline | httpbin/pipeline.go:139-244 | the index loop computes the recursive parser, with every error |
| Pipeline.MatchTerminal | httpbin/pipeline.go:200-235 | longest name first, arity checks |
| Pipeline.BuildModifierPrefix | httpbin/pipeline.go:247-261 | the builder loops print the modifiers' segments |
| Pipeline.ParseComplete | httpbin/pipeline.go:162-235 | every derivation of the grammar is found, in spite of the dual role of status and names of two segments |
| Pipeline.ParseSound | httpbin/pipeline.go:162-235 | what is accepted is derived: modifiers, terminal, and extras after a fixed-arity terminal of one segment only |
| Pipeline.ParseIff | httpbin/pipeline.go:162-235 | both directions, hence the grammar is unambiguous |
| Pipeline.ParseOfPrint | httpbin/pipeline.go:139-261 | parsing a printed pipeline within 20 segments returns it |
| Pipeline.ParsePrintParse | httpbin/pipeline.go:139-261 | parse, print, parse equals parse |
| Pipeline.ParseAfterModifiers | httpbin/pipeline.go:165-198 | modifiers in front of any segments are parsed as such |
| Pipeline.TwoSegmentArguments | httpbin/pipeline.go:203-217 | a terminal of two segments gets exactly what follows it, so no arguments if and only if nothing follows |
| PipelineTables.ExtraArgumentIsKept | httpbin/pipeline.go:203-217 | an input: /no-cache/cookies/set/x is accepted with the argument x |
| PipelineTables.ShippedIsWellFormed | httpbin/pipeline.go:48-134 | the tables that ship meet the conditions the parser theorems need |
| PipelineRedirect.DispatchRedirect | httpbin/pipeline.go:648-710 | the next Location, or a refusal, in the relative and the absolute form |
| PipelineRedirect.LocationForm | httpbin/handlers.go:1056-1064 | both forms carry the prefix exactly once and lead back to the printed path |
| PipelineRedirect.RedirectStep | httpbin/pipeline.go:648-710 | a redirect re-parses to the same modifiers, kind and destination with the count less one |
| PipelineRedirect.RedirectChain | httpbin/pipeline.go:139-261 | following k of n Locations leads to the k-th waypoint, and n of them to the destination or /get |
| PipelineRedirect.DestinationIsParsed | httpbin/pipeline.go:689-709 | the last Location is parsed as the destination under the same modifiers |
| PipelineRedirect.ShippedHasRedirects | httpbin/pipeline.go:129-134 | the shipped tables are an instance |
| PipelineDelays.AcceptedDelays | httpbin/helpers.go:1364-1395 | a delay is accepted exactly when it denotes a range with 0 <= min <= max <= maximum |
| PipelineDelays.CheckModifiers | httpbin/pipeline.go:284-324 | the validation loop, with the total in int64 |
| PipelineDelays.CheckSucceeds | httpbin/pipeline.go:284-324 | validation succeeds exactly when every modifier is acceptable |
| PipelineDelays.CheckedStatus | httpbin/pipeline.go:309-318 | the first status is kept |
| PipelineDelays.CheckedDelays | httpbin/pipeline.go:286-293 | one range per delay modifier, in order, and their wrapped sum |
| PipelineDelays.CheckedBudget | httpbin/pipeline.go:286-293 | every accepted delay satisfies 0 <= min <= max <= maximum |
| PipelineBudget.AtMostNineDelays | httpbin/pipeline.go:136-198 | a parsed pipeline holds at most nine delays |
| PipelineBudget.ShippedDelays | httpbin/pipeline.go:48-55 | the shipped delay modifiers take one argument each |
| PipelineBudget.Sleep | httpbin/pipeline.go:331-348 | for any draws, the time slept; None for the panic of rand.Int63n on a range whose width overflows |
| PipelineBudget.SleptBounds | httpbin/pipeline.go:331-348 | the time slept is at most the sum of the maxima |
| PipelineBudget.HandlePipeline | httpbin/pipeline.go:269-348 | the handler up to its terminal: refusal, panic or time slept; for nine times the maximum within int64 never a panic and never longer than the maximum |
| PipelineBudget.DelayedGetIsParsed | httpbin/pipeline.go:139-261 | the URL of k delays and get is parsed as that |
| PipelineBudget.Overflow | httpbin/pipeline.go:284-348 | otherwise such a URL is admitted and sleeps k times the maximum |
| PipelineBudget.BudgetHoldsIff | httpbin/pipeline.go:269-348 | no URL makes a request sleep longer than the maximum if and only if nine times the maximum fits int64 |
| Writers.Stack.ObserverWriteHeader | httpbin/middleware.go:83-89 | passes the call on and records the status |
| Writers.Stack.ObserverWrite | httpbin/middleware.go:77-81 | passes the bytes on and adds their number |
| Writers.Stack.HeadWrite | httpbin/middleware.go:52-54 | discards the bytes and reports them as written |
| Writers.Stack.DoWriteHeader | httpbin/pipeline.go:393-398 | the override, once |
| Writers.Stack.DoWrite | httpbin/pipeline.go:400-405 | the override before the first byte |
| Writers.Stack.DoFlush | httpbin/pipeline.go:407-411 | passed on without a header |
| Writers.OverriddenCalls | httpbin/pipeline.go:382-411 | for every sequence of calls, the calls that reach the server's writer |
| Writers.AlwaysRecorded | httpbin/middleware.go:48-109 | recorded status and size match what was sent, with size zero under HEAD, for every sequence of calls |
| Writers.OverrideWins | httpbin/pipeline.go:382-411 | exactly one WriteHeader with the override, body bytes unchanged, and it comes first if and only if the handler does not begin with Flush |
| Writers.ClientSeesOverrideIff | httpbin/pipeline.go:393-411 | for every call sequence: the client gets the override if and only if the first call is a Write or WriteHeader and the status is final, or it is 200; it is logged whenever the handler writes |
| Pdf.FillEntry | httpbin/helpers.go:1337-1343 | the reused 20-byte entry is zero-padded in place |
| Pdf.WriteEntries | httpbin/helpers.go:1335-1345 | one entry per object; fails exactly when an offset has more than ten digits |
| Pdf.WriteKids | httpbin/helpers.go:1217-1223 | the Kids references |
| Pdf.NumberPages | httpbin/helpers.go:1208-1213 | object numbers 4, 6, 8, ... |
| Pdf.ObjectWritten | httpbin/helpers.go:1194-1228 | each recorded offset is the length of the file so far |
| Pdf.GeneratePdf | httpbin/helpers.go:1194-1355 | the loops produce the file; fails exactly when an offset does not fit |
| PdfTheorem.ObjectIsLocated | httpbin/helpers.go:1330-1345 | entry k holds the offset at which the bytes are object k |
| PdfTheorem.StreamIsRead | httpbin/helpers.go:1320-1327 | each /Length is the exact length of its stream |
| PdfTheorem.ReadsBack | httpbin/helpers.go:1194-1355 | startxref, table, /Size, /Root, /Count, /Kids, /Contents and /Length lead a reader to exactly the page contents written, for any number of pages |
| PdfTheorem.SmallFilesFit | httpbin/helpers.go:1337-1345 | below ten billion bytes every offset fits |
| Base64.DecodeOfEncode | httpbin/helpers.go:543-567 | each of the four encodings is inverted by its own decoder |
| Base64.GroupsAgree | httpbin/helpers.go:554-567 | two encodings that both accept a text decode it to the same bytes |
| Base64.FlexibleIff | httpbin/helpers.go:554-567 | the flexible decoder returns x exactly when some encoding decodes to x |
| Base64.FlexibleInverts | httpbin/helpers.go:543-567 | whichever encoding wrote the text, and however it was wrapped, the original bytes come back |
| Base64.EncodedIsUnbroken | httpbin/helpers.go:543-548 | encoded text contains no line breaks, so the previous row applies to it as it is |
| Base64.MixedIsRefused | httpbin/helpers.go:554-567 | text that mixes the alphabets is refused |
| Cache.BoundedCache.Put | httpbin/helpers.go:876-886 | some entry goes if the cache is full, the new one is stored |
| Cache.Pdf | httpbin/handlers.go:1608-1628 | the handler is the three steps of a request |
| Cache.AdvanceIsSound | httpbin/helpers.go:869-886 | each step of any request keeps cached, generated and answered data right |
| Cache.EveryAnswerIsGenerated | httpbin/handlers.go:1608-1628 | in every interleaving each answer is what the generator gives for the request's key, and the cache stays within its bound |
| Cache.ThreeStepsAnswer | httpbin/handlers.go:1608-1628 | three steps of its own answer a request, whatever others do |
| SyntheticStream.Stream.Read | httpbin/helpers.go:430-452 | the generated bytes from the offset on, the new offset, and EOF exactly when the end is reached |
| SyntheticStream.Stream.Seek | httpbin/helpers.go:455-475 | the new position, or an error for a negative one |
| SyntheticStream.Stream.ReadAll | httpbin/helpers.go:430-452 | reads of any sizes together return what one read of the rest would, and keep the offset in range |
| SyntheticStream.SeekIsStandardIff | httpbin/helpers.go:459-466 | Seek moves where io.Seeker says if and only if it does not move away from the end |
| Pacing.PausesCover | httpbin/helpers.go:391-403 | the pauses total at least the duration and at most duration + count - 2 |
| Pacing.PausePositiveIff | httpbin/helpers.go:391-403 | the ticker gets a positive pause if and only if the duration is positive and the sum does not overflow |
| Pacing.Drip | httpbin/handlers.go:753-805 | the bytes written and the pauses made; exactly numBytes bytes in both branches when not cancelled |
| Pacing.Sse | httpbin/handlers.go:1424-1489 | the ids of the events written and the pauses made, and when the ticker panics |

## Left out

- Sockets, hijacking, deadlines, the request multiplexer and goroutine scheduling are steps, logical clocks and byte sequences here.
- The opening handshake and `acceptKey` of the WebSocket: header checks around SHA-1.
- WsServer.FrameResponse: stops after a given number of rounds, since the loop it models may run forever; the contract holds for every number.
- WsConn.Conn.ReadFull: a failed read leaves the input as it was, where the original has consumed it; the loop never reads again after a failure.
- WsConn.Conn.WriteFrame: does not model the buffering of bufio, which may hold bytes back until Flush; bytes reach the peer in the same order.
- Payload sizes that cannot be allocated by nextFrame, and sizes above the range of a Go int; `EverythingSentIsLegal` and `WsWire` state this range.
- Errors of handlers other than the echo handler appear in close reasons as they are; nothing is proved about their length.
- RateLimiter.Limiter.Allow: does not model rounding of float64 (reals) nor the identity of map entries behind references.
- RateLimiterRuns.ExpiryIsInvisibleIff: assumes a rate that is not negative and room for at least one entry.
- `normalizeIPForRateLimit` and the choice of the client's address: they rest on the net library.
- Percent-encoding of paths and queries: paths are strings of plain characters.
- PipelineRedirect.RedirectStep: leaves out the validation of modifiers, which depends on the modifiers alone and so has the same outcome at each step, and the status code, which a status modifier replaces.
- Paths without modifiers and destination never reach the pipeline handler; the theorems hold for them all the same.
- `time.ParseDuration`, `isAllowedMixHeader` and `parseStatusCode` are parameters of the validation loop.
- PipelineBudget.Sleep: leaves out the end of the request context during a delay, which only shortens the sleep.
- PipelineBudget.BudgetHoldsIff: assumes that the maximum can be written as a number of nanoseconds, as time.ParseDuration allows.
- Writers.ClientSeesOverrideIff: the server's own writer of net/http is given by its documented rule for implicit and informational headers.
- Writers.Stack.ObserverWrite: assumes that the server's writer takes all bytes, so errors of the connection are not modelled; Unwrap, Hijack and the panic in test mode are left out.
- PDF page layout, random values and number formatting: page contents are arbitrary bytes.
- Base64: the decoders of encoding/base64 are modelled after sections 4 and 5 of RFC 4648 with line breaks skipped and trailing bits ignored, since the library is not part of the repository; partial output next to an error is dropped.
- Cache.Pdf: the generator is a function of the key; `generatePDF` never returns an error, so the error branch is left out, and the image cache works alike.
- SyntheticStream.Stream.Read: leaves out the pause per byte and overflow of offsets.
- Pacing.Drip: leaves out the initial delay, headers and parameter parsing, which bounds the arguments.
- Pacing.Sse: leaves out the retry line and the text of events, and overflow of event ids.
- `/mix`, image path tokens, Accept parsing, the concurrency semaphore and chunked byte endpoints: easier relatives of what is modelled.
- JSON responses, cookies, authentication, digest authentication, static assets, templates, images and configuration.
