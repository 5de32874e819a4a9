# Chaos_Forger in Dafny

Chaos_Forger is a daemon that lists local Docker containers, matches them against rules, rolls dice and stops or
kills what it matched. It brings its own HTTP/1.1 response parser, JSON parser, strike engine and shutdown protocol.
This project models those parts and proves properties of them over all inputs, all environments and all runs.

Verify it with `dafny verify dfyconfig.toml`.

## How it is organised

Code that updates an object in place is a class whose methods are proved equal to functions on the object's value;
the properties are lemmas about those functions.

- **HTTP** (`HttpSpec`, class `HttpParser.HttpResponseParser`). A parser is fed bytes in pieces. `HttpHeads`,
  `HttpFragments` and `HttpMessages` say exactly when the pieces cannot be told apart from one feed of the whole;
  `HttpFeeds`, `HttpDelivery`, `HttpChunks` and `HttpChunkedMessages` say exactly which fragmentations of a message
  deliver it, and `HttpResponses` and `HttpExchanges` put these together into round trips for whole responses, through
  the parser and through the client. `HttpFraming` treats the status line and the framing headers (sections 3.1.2 and
  3.3.3 of RFC 7230), `HttpFields` and `HttpChunkGrammar` the grammars of header fields, lengths and chunks,
  `HttpLimits` memory, `HttpProgress` the number of feeds, `HttpClient` the read loop over an abstract transport.
- **JSON** (`JsonSyntax`, `JsonSpec`, class `JsonParser.Parser`). `JsonSyntax` is a grammar of the dialect, with the
  value of every phrase. `JsonTokens` and `JsonProofs` show that the parser accepts exactly the texts of the grammar,
  with those values; `JsonNesting` says how deep they may nest, `JsonLexicon` what single characters mean, and
  `JsonValues` which values have a text; `Unicode` treats UTF-8 (section 3 of RFC 3629) and surrogate pairs (section 7
  of RFC 8259).
- **Engine** (`EngineSpec`, classes `Engine.World` and `Engine.ChaosEngine`). Every use of a dependency is an event,
  and the log of events is the clock: the stop flag may be set between any two of them, and Docker's answers and the
  dice are arbitrary functions of the moment. `EngineRuns`, `EngineModes` and `EngineLateAction` prove properties of
  all runs.
- **Shutdown** (`Shutdown`). Any number of requesters and waiters, interleaved step by step, with time-outs and
  spurious wakeups at any moment.
- **Scheduler** (`Scheduler`). The daemon loop over any monotone clock and any tick durations.
- **Pipeline** (`Config`, `Discovery`, `DockerApi`, `Chaos`, `EndToEnd`). From accepted configuration text and
  accepted container lists to the request path of every strike.

A C++ `char` is a Dafny `char`; the theorems hold for all characters, hence for the 256 that occur. Error messages
are tags. Sizes are natural numbers. JSON numbers are kept as lexemes; `inRange` (does `std::stod` convert it?) and
`value` (to what?) are arbitrary functions, so the results hold for any floating-point conversion. Atomics are
sequentially consistent steps. Transports, Docker, clocks and dice are parameters.

## Where the code does less than its comments or the obvious claim

Each is proved with its exact condition.

- A feed that completes the head counts body bytes against the header limit, bytes after a Content-Length body are
  an error only if they arrive before the body is complete, and a head without header lines takes its framing from
  whatever body bytes have arrived (`src/http_socket.cpp:156-159`, `:251`, `:313-317`). `FeedComposes` says exactly
  which cuts show, `FragmentationIndependence` which messages no fragmentation can affect, and `ResponseRoundTrip`
  which fragmentations of a response are delivered.
- A cut inside the trailer section of a chunked message is never repaired: the next feed reads trailer bytes as a
  chunk-size line (`src/http_socket.cpp:332`, `:364`). The limit on size lines applies only to lines whose end has not
  arrived (`src/http_socket.cpp:326`). `ChunkedDecoding` says exactly which fragmentations work.
- Because of such pauses the client's read loop need not end. It reads for ever exactly if infinitely many reads pause
  it (`EndlessIffPauses`), and there is a peer that makes it do so (`EndlessPeer`).
- The comment at `include/forger/http_socket.hpp:91-95` puts Content-Length before chunked; the code lets chunked win
  wherever it stands. `Precedence` states what the code does.
- A wait of the scheduler is narrowed to 32 bits. It is at most one interval unless the process was held up for more
  than 2^31 ms between two clock readings (`main.cpp:173-175`): `WaitBound`, `LongWaitExample`.
- "No new strikes start once shutdown begins" holds up to one action whose guard had been passed: `ShutdownSafety`.
  `LateActionIff` says exactly when there is one, and `LateActionHappens` that any action can be it.

## Model

| member | source | states |
|---|---|---|
| HttpParser.HttpResponseParser.Feed | src/http_socket.cpp:137-164 | One call, for bytes or the end-of-stream marker, takes the object exactly from one specified value to the next, and returns false exactly in the error state. |
| HttpParser.HttpResponseParser.ParseStatusLine | src/http_socket.cpp:215-243 | The method refines the status line reader, including the status code that is stored before a late rejection. |
| HttpParser.HttpResponseParser.ParseHeaders | src/http_socket.cpp:245-304 | The header loop refines the fold over the header text and leaves buffer and state alone unless a line is fatal. |
| HttpParser.HttpResponseParser.ReadHeaderLine | src/http_socket.cpp:261-300 | One header line changes framing, length and fault as the specification of that line demands. |
| HttpParser.HttpResponseParser.BodyStepContentLength | src/http_socket.cpp:306-318 | The body is the first n bytes; surplus bytes fail. |
| HttpParser.HttpResponseParser.BodyStepChunked | src/http_socket.cpp:320-408 | The resumable chunk loop refines the run of single decoder moves. |
| HttpParser.HttpResponseParser.ScanTrailerLines | src/http_socket.cpp:351-376 | The trailer loop finds the blank line, or reports that the trailers are incomplete or too long. |
| HttpHeads.TrimKeepsCoding | src/http_socket.cpp:266-270 | Whether "chunked" stands in a field value does not depend on trimming the white space around it. |
| HttpHeads.QuietPrefix | src/http_socket.cpp:254-262 | A header line that decides nothing about framing decides nothing when it is cut short. |
| HttpHeads.HeadExtends | src/http_socket.cpp:168-183 | Reading a head commutes with appending bytes behind it, if its status line is rejected or its header text decides the same with them. |
| HttpHeads.StableIsSame | src/http_socket.cpp:245-252 | That holds for any bytes when there is a header line, or no line of the wrapped-around header text decides anything. |
| HttpFragments.ChunkComposes | src/http_socket.cpp:320-408 | A decoder that is interrupted anywhere outside the trailer section and given more bytes later ends where an uninterrupted one does: same body, remaining count, started flag and buffer. |
| HttpFragments.PauseShows | src/http_socket.cpp:351-366 | After a pause inside the trailer section the next bytes are read as a size line: the difference is invisible exactly if both readings wait in an unfinished line, or the first line is a zero-size line and both scans end alike. |
| HttpFragments.LongLineShows | src/http_socket.cpp:324-331 | A size line given up as too long shows exactly when its end arrives. |
| HttpFragments.ChangeShows | src/http_socket.cpp:245-304 | A head whose lines decide something else with the bytes behind it leaves a lasting mark. |
| HttpFragments.FeedComposes | src/http_socket.cpp:137-197 | From any unfinished parser, two feeds are indistinguishable from one feed of both if and only if the cut is safe: it lets no message over the header limit pass, leaves the reading of the head as it is, ends no non-chunked body early, and neither pauses visibly inside the trailer section nor gives up a size line that the second feed ends. |
| HttpFragments.ObservedFeed | src/http_socket.cpp:137-164 | Parsers that cannot be told apart stay so after any further call, the end-of-stream marker included. |
| HttpMessages.RobustSplit | src/http_socket.cpp:137-197 | Any number of feeds of a robust message leaves the parser in the same observable state as one feed. |
| HttpMessages.UnstableCut | src/http_socket.cpp:245-252 | A message without header lines whose body contains a framing line is read differently when it is cut just behind its head. |
| HttpMessages.FragmentationIndependence | src/http_socket.cpp:137-197 | For every message that is not chunked, all fragmentations agree if and only if the head alone exceeds the header limit (or never completes), or the whole message fits it, its head is stable and no byte follows a Content-Length body. |
| HttpFeeds.ShortOfHead | src/http_socket.cpp:151-173 | Feeds that stay short of the end of the head are only buffered, up to the header limit. |
| HttpFeeds.GuardFails | src/http_socket.cpp:153-159 | If the feed that completes the head leaves more than the header limit in the buffer, the parser ends in an error, whatever follows. |
| HttpFeeds.HeadCutShort | src/http_socket.cpp:141-149 | A stream that ends before the blank line is an error, whatever its framing would have been. |
| HttpDelivery.Delivered | src/http_socket.cpp:137-318 | A complete message of any length that is not chunked is delivered, with exactly its status, reason and body, if and only if the feed that completes its head leaves no more than the header limit in the buffer and a body without a length is within the body limit; cut in any other way it ends in an error. With a Content-Length it is done before the stream ends. |
| HttpDelivery.CutShort | src/http_socket.cpp:141-149 | A Content-Length message that is cut short is never delivered: when its stream ends, the parser fails. |
| HttpDelivery.Rejected | src/http_socket.cpp:166-197 | A message with a rejected head ends in an error, however it is cut. |
| HttpChunks.PrefixRun | src/http_socket.cpp:320-408 | What the decoder holds after any prefix of an encoded body: the payload so far, where it stands in the current chunk, and the unread bytes. |
| HttpChunks.TrailerAsSize | src/http_socket.cpp:324-345 | A decoder that meets trailer bytes where it expects a size line waits for the end of the line and then fails. |
| HttpChunkedMessages.Supported | src/http_socket.cpp:320-408 | All fragmentations of any prefix of a chunked message with good cuts reach the same parser value. |
| HttpChunkedMessages.BadCutFails | src/http_socket.cpp:322-366 | A cut inside the trailer section, or behind more than the line limit of an unfinished size line, leaves the parser failed or stuck, whatever the later feeds are. |
| HttpChunkedMessages.ChunkedDecoding | src/http_socket.cpp:320-408 | Chunk decoding inverts chunk encoding (section 4.1 of RFC 7230) for any chunks, extensions and trailers: the message ends in `Done` with the concatenated chunks if and only if the feed that completes the head leaves no more than the header limit in the buffer, no cut falls inside the trailer section, and no cut leaves more than the line limit of an unfinished size line; every other fragmentation ends in an error. |
| HttpChunkedMessages.CutShort | src/http_socket.cpp:141-149 | Nor is a chunked message that is cut short, whatever its fragmentation. |
| HttpChunkGrammar.SizeLineIff | src/http_socket.cpp:334-349 | A size line is read exactly if it is one to sixteen hexadecimal digits and an optional extension, as the number the digits write. |
| HttpChunkGrammar.DecodeSound | src/http_socket.cpp:320-408 | A run of the decoder that ends has read a chunked encoding, and its body is the payload. |
| HttpChunkGrammar.DecodeIff | src/http_socket.cpp:320-408 | The decoder finishes with a payload added to its body if and only if its bytes start with an encoding of that payload (section 4.1 of RFC 7230), trailers within the line limit, and the body stays within its limit. |
| HttpChunkGrammar.WrittenEncodes | src/http_socket.cpp:334-349 | Any pieces of data, written as chunks with hexadecimal sizes, are an encoding of what they add up to. |
| HttpResponses.BlankBehind | src/http_socket.cpp:168-173 | In a written head the first blank line is the one behind its last line. |
| HttpResponses.LinesReadBack | src/http_socket.cpp:250-258 | The header loop cuts a written header block into exactly the lines that were written. |
| HttpResponses.HeadReads | src/http_socket.cpp:166-304 | A written head is read back: code, reason, and the framing its lines decide; it is rejected exactly if a line is fatal, or nothing frames the body and the end of the stream may not. |
| HttpResponses.ResponseRoundTrip | src/http_socket.cpp:137-318 | A written response, of any length, comes out with its code, reason and body if and only if the feed that completes its head leaves no more than the header limit in the buffer and a body without a length is within the body limit; otherwise it ends in an error. With a Content-Length it comes out before the stream ends. |
| HttpResponses.FatalResponse | src/http_socket.cpp:281-296 | A response with a fatal header line ends in an error, however it is cut. |
| HttpResponses.BadLengthRefused | src/http_socket.cpp:285-294 | A response whose Content-Length, in any case of its name, is not a length or exceeds the body limit, with no chunked header before it, ends in an error, however it is cut. |
| HttpResponses.LengthCutShort | src/http_socket.cpp:141-149 | A written response with a Content-Length that is cut short is never delivered. |
| HttpResponses.ChunkedCutShort | src/http_socket.cpp:141-149 | Nor is a written chunked response. |
| HttpResponses.ChunkedRoundTrip | src/http_socket.cpp:137-408 | The same for written chunked responses, for exactly the fragmentations that `ChunkedDecoding` names; all others end in an error. |
| HttpResponses.LengthReadBack | src/http_socket.cpp:285-296 | A Content-Length written in decimal is read back, up to 2^64 - 1. |
| HttpResponses.WrittenResponse | src/http_socket.cpp:137-318 | Writing any code, reason and body with the length of the body and reading it in pieces gives all three back if and only if the body is within its limit and the feed that completes the head within the header limit; otherwise it ends in an error. |
| HttpFraming.StatusLineGrammar | src/http_socket.cpp:215-243 | A status line is accepted if and only if it has the form of section 3.1.2 of RFC 7230 with version 1.0 or 1.1. |
| HttpFraming.StatusLineAccepted | src/http_socket.cpp:234-241 | An accepted status line yields the decimal value of its code and its reason phrase. |
| HttpFraming.Precedence | src/http_socket.cpp:254-303 | Over any header list: the head fails exactly when a malformed or over-limit Content-Length precedes every chunked header; otherwise chunked wins wherever it stands, else the last Content-Length decides, else nothing. What these lines and values are is stated by `LengthLineIff`, `ChunkedLineIff` and `LengthGrammar`. |
| HttpFraming.HeaderBlockPrecedence | src/http_socket.cpp:245-304 | The same for the lines of the header block that the parser cuts out of its buffer. |
| HttpFields.FieldIff | src/http_socket.cpp:261-270 | A line is read as a name and a value exactly if it is that name without a colon, a colon, and the value between optional spaces and tabs. |
| HttpFields.LengthLineIff | src/http_socket.cpp:272-285 | A line is a Content-Length exactly if that is the name of its field, in any case. |
| HttpFields.ChunkedLineIff | src/http_socket.cpp:297-299 | A line announces chunked framing exactly if it is a Transfer-Encoding, in any case, whose value contains "chunked". |
| HttpFields.LengthGrammar | src/http_socket.cpp:286-296 | A value is read as a number if and only if it is white space, an optional sign and digits up to its end or its first NUL; the number saturates at 2^64 - 1, and a minus negates it modulo 2^64. |
| HttpFields.MalformedIff | src/http_socket.cpp:287-290 | A value is malformed exactly if it does not have that form. |
| HttpFields.StrayRefused | src/http_socket.cpp:287-290 | Any other byte in a value, as in "12abc" or "5, 5", makes it malformed. |
| Text.LowerIffSame | src/http_socket.cpp:272-283 | Folding case identifies exactly the two cases of the 26 letters. |
| HttpLimits.FeedBounded | src/http_socket.cpp:153-162 | Every feed keeps the body within the body limit (with the rest of the current chunk) and the buffer within the bound of the state. |
| HttpLimits.AlwaysBounded | src/http_socket.cpp:137-408 | The same over every sequence of feeds and end-of-stream markers from a new parser. |
| HttpProgress.FeedProgress | src/http_socket.cpp:137-197 | Every non-empty feed lowers a rank, unless it leaves the decoder paused inside the trailer section; outside chunked framing the rank counts header and body limit only. |
| HttpProgress.EndlessTrailer | src/http_socket.cpp:351-366 | Feeding a zero-size line again and again leaves the parser where it was, for ever. |
| HttpClient.Request | src/http_socket.cpp:431-477 | The exchange reports what the read loop computes from the peer's answers; a connected transport is closed exactly once, and one that did not connect is not. |
| HttpClient.LoopEnds | src/http_socket.cpp:447-468 | The loop ends within the rank of its parser, plus a fixed number of reads for every read that pauses it inside a trailer section. |
| HttpClient.PlainLoopEnds | src/http_socket.cpp:447-468 | For Content-Length and end-of-stream framing the reads are bounded by header limit, body limit and a constant. |
| HttpClient.ReadBounds | src/http_socket.cpp:446-468 | Both bounds for the client's own parser and limits. |
| HttpClient.EndlessIffPauses | src/http_socket.cpp:447-468 | Against any stream of reads, the loop never ends if and only if infinitely many reads pause it inside a trailer section. |
| HttpClient.LoopNeedNotEnd | src/http_socket.cpp:447-468 | With a peer that repeats a zero-size line the loop never ends. |
| HttpClient.DeliveredIsDone | src/http_socket.cpp:471-476 | A response is delivered only from a parser in `Done`, with that parser's fields. |
| HttpExchanges.LengthExchange | src/http_socket.cpp:431-477 | The client reports a response with a Content-Length, in any reads, with code, reason and body, or a malformed response, as the guard of the header limit decides; it reads no further. |
| HttpExchanges.StreamExchange | src/http_socket.cpp:431-477 | The same for a response that lasts until the end of the stream, within the body limit. |
| HttpExchanges.ChunkedExchange | src/http_socket.cpp:431-477 | The same for a chunked response, as the guard and the cuts decide. |
| HttpExchanges.ClientDelivers | src/http_socket.cpp:446-477 | If head and read buffer together fit the header limit, every peer's response within the body limit is delivered. |
| HttpExchanges.LongRefused | src/http_socket.cpp:291-293 | A response of more than 16 MiB is refused by the client, however it is cut. |
| HttpExchanges.TruncatedExchange | src/http_socket.cpp:455-463 | When the peer ends the stream inside a response with a Content-Length, the client reports a malformed response. |
| HttpExchanges.TruncatedChunks | src/http_socket.cpp:455-463 | The same inside a chunked response. |
| HttpExchanges.TruncatedHead | src/http_socket.cpp:455-463 | The same inside a head. |
| HttpExchanges.FailedExchange | src/http_socket.cpp:450-454 | A read that fails is reported as such, unless the parser has finished before it. |
| HttpExchanges.EndlessExchange | src/http_socket.cpp:351-366 | From its start, the client reads for ever from a peer that sends a chunked head and then a zero-size line in every read. |
| HttpExchanges.EndlessPeer | src/http_socket.cpp:446-468 | Such a peer exists, with reads that fit the read buffer. |
| Unicode.Utf8RoundTrip | src/json.cpp:200-216 | The emitted bytes decode back to the code point for exactly the scalar values; lone surrogates do not decode. |
| Unicode.Utf8Injective | src/json.cpp:200-216 | Different code points never have the same bytes. |
| Unicode.PairBijection | src/json.cpp:158-163 | Surrogate pairs correspond one-to-one to 0x10000..0x10FFFF. |
| Text.HexPlaces | src/json.cpp:187-195 | The hexadecimal digits are the sixteen, in either case, with their places as values. |
| JsonLexicon.WhiteSpace | src/json.cpp:44-53 | Exactly the characters 9, 10, 13 and 32 may stand in front of a value. |
| JsonLexicon.ShortEscapes | src/json.cpp:143-174 | A backslash and one more character form a string for exactly eight characters, with the meanings of section 7 of RFC 8259. |
| JsonParser.Parser.Parse | src/json.cpp:19-32 | The object's result is that of the specified parse of its text. |
| JsonParser.Parser.ParseValue | src/json.cpp:63-86 | Result and remaining text agree with the specification; the recursion ends by a lexicographic measure of remaining text and function, and the cursor stays within the text. |
| JsonParser.Parser.ParseNumber | src/json.cpp:99-127 | The scanning steps take exactly the specified lexeme. |
| JsonParser.Parser.ParseString | src/json.cpp:129-178 | The string loop refines the recursive reading of the body, and advances on success. |
| JsonParser.Parser.ReadEscape | src/json.cpp:143-174 | One escape yields its bytes; a high surrogate without a low one behind it is given up with the cursor restored. |
| JsonParser.Parser.ReadHex4 | src/json.cpp:180-198 | Four hexadecimal digits yield their value and advance the cursor by four. |
| JsonParser.Parser.ParseArray | src/json.cpp:218-243 | The array loop refines the element list, and each round shortens the text. |
| JsonParser.Parser.ParseObject | src/json.cpp:245-278 | The object loop refines the member list; a repeated key is overwritten. |
| JsonTokens.NumberComplete | src/json.cpp:99-127 | Every number of the dialect is scanned to its end, whatever delimiter follows. |
| JsonTokens.NumberSound | src/json.cpp:99-127 | What is scanned as a number is a number of the dialect. |
| JsonTokens.BodyComplete | src/json.cpp:129-178 | Every sequence of string pieces, with any choice of escapes, is read back to the bytes it stands for. |
| JsonTokens.BodySound | src/json.cpp:129-178 | What is read as a string consists of valid pieces, and its result is theirs. |
| JsonProofs.ValueComplete | src/json.cpp:63-278 | Every phrase of the grammar, with any white space between its tokens, parses to its meaning and leaves the rest. |
| JsonProofs.ValueSound | src/json.cpp:63-278 | Every successful parse consumed a phrase of the grammar that means its result. |
| JsonProofs.ParseIffDerives | src/json.cpp:19-32 | A text parses to a value if and only if the whole text derives that value: no trailing text, no trailing commas, the last duplicate key wins, nothing below depth 64. |
| JsonProofs.OneMeaning | src/json.cpp:19-32 | The grammar gives each text at most one value. |
| JsonProofs.DocumentParses | src/json.cpp:19-53 | Every rendering of a value parses back to it. |
| JsonValues.RoundTrip | src/json.cpp:19-278 | A value has a text that parses back to it if and only if it is shallow enough and its number lexemes are numbers that convert. |
| JsonValues.NoDeepText | src/json.cpp:63-67 | No accepted text nests more than 65 containers. |
| JsonDepth.ValidIff | src/json.cpp:63-67 | A phrase is valid at a depth exactly if it is well-formed and nothing in it lies below depth 64. |
| JsonNesting.DepthDecides | src/json.cpp:63-67 | A well-formed text of any depth parses, to its meaning, if and only if nothing in it lies below depth 64. |
| JsonNesting.ArrayNesting | src/json.cpp:63-67 | Nested brackets parse if and only if there are 1 to 65 pairs, or up to 64 around a value. |
| JsonNesting.ObjectNesting | src/json.cpp:63-67 | Nested objects parse if and only if there are up to 64 around a value or an empty object. |
| JsonValues.EscapedUnit | src/json.cpp:153-170 | A scalar value written as one escape is read as its UTF-8 form, which decodes back. |
| JsonValues.EscapedPair | src/json.cpp:156-163 | Every other scalar value, written as its surrogate pair, is too. |
| JsonValues.HighThenAny | src/json.cpp:156-170 | After a high surrogate exactly one low escape is consumed with it; otherwise reading resumes at the saved cursor with nothing lost. |
| Config.TrimIsExact | src/config.cpp:25-30 | Trimming removes exactly the white space around a text, and that is the only way to do it. |
| Config.ValidateConfig | src/config.cpp:62-206 | The field-by-field validation with its rule loop computes the specified configuration or rejects. |
| Config.AcceptedIsSane | src/config.cpp:73-206 | Every field of a configuration accepted from the defaults is in its range, and there is at least one rule with a usable pattern, for any number conversion. |
| Config.AcceptedReads | src/config.cpp:73-206 | Every field of an accepted configuration comes from its own key, numbers without loss, absent fields from the defaults; the rules are those of the list in its order, with trimmed pattern and case-folded action. |
| Config.AcceptedIff | src/config.cpp:62-206 | A document is accepted if and only if it is an object, every key that is present holds what it should, in its range, and the rules are there and good. |
| Config.RulesSane | src/config.cpp:172-206 | Each accepted rule comes from the entry at its position. |
| Discovery.ContainsIsOccurs | src/discovery.cpp:9-12 | A name contains a pattern exactly when the pattern is non-empty and occurs in it. |
| Discovery.HitIff | src/discovery.cpp:9-31 | A rule hits a container exactly if its pattern is not empty and occurs in one of its names. |
| Discovery.MatchContainers | src/discovery.cpp:14-35 | The nested loops with early exits compute the specified matches. |
| Discovery.MatchingIsSelection | src/discovery.cpp:14-35 | The output is the order-preserving selection of exactly the containers that some rule hits, each position once, with the least rule index. |
| Discovery.NamesDecide | src/discovery.cpp:21-31 | Images, states and statuses have no influence on which containers match which rule. |
| Chaos.ActionBudget | src/chaos.cpp:11-30 | The selection is an initial segment whose length is the smaller of the matches and the allowance under both caps. |
| Chaos.ChaosRoller.SetProbability | src/chaos.cpp:37-45 | The probability is clamped to [0, 1]; not-a-number becomes zero. |
| Chaos.ChaosRoller.Roll | src/chaos.cpp:47-56 | A roll is counted and fires exactly below the probability. |
| DockerApi.NormalizedName | src/docker_api.cpp:32-35 | A normalized name is the raw name without its leading slashes. |
| Text.DecimalRoundTrip | src/docker_api.cpp:40-41 | The decimal numeral of a number reads back as that number. |
| Text.NoLeadingZero | src/docker_api.cpp:40-41 | That numeral has no superfluous zero. |
| DockerApi.PathTexts | src/docker_api.cpp:37-49 | The paths are the literal ones of version 1.41, exactly for ids of 64 hexadecimal digits and timeouts from 1 to 600. |
| DockerApi.StopPathRoundTrip | src/docker_api.cpp:37-43 | A stop path exists exactly for a 64-digit hexadecimal id and a timeout from 1 to 600, and reads back as both. |
| DockerApi.KillPathRoundTrip | src/docker_api.cpp:45-49 | A kill path exists exactly for a valid id, and reads back as it. |
| DockerApi.ParseContainerList | src/docker_api.cpp:100-148 | The list loop over the parsed response refines the specified list; entries without a valid id are skipped. |
| DockerApi.ListIsSelection | src/docker_api.cpp:112-146 | The list keeps exactly the entries with a valid id, in order, each field from its own key. |
| DockerApi.NamesAreSelection | src/docker_api.cpp:123-131 | The names kept are exactly those with something behind their leading slashes, without these, in order. |
| DockerApi.ListOfBody | src/docker_api.cpp:100-148 | A body is a container list exactly if it is a JSON array, and then the list is that selection of all its entries. |
| DockerApi.ListedContainersAreClean | src/docker_api.cpp:112-146 | Every listed container has a valid id, and non-empty names without leading slashes. |
| Engine.ChaosEngine.Tick | src/engine.cpp:41-110 | One tick, with every use of a dependency logged in order, refines the specified tick; it reports failure exactly when discovery failed. |
| Engine.ChaosEngine.StrikeIfFired | src/engine.cpp:82-108 | Second guard, mode check, gate, budget and sweep. |
| Engine.ChaosEngine.ShouldStrike | src/engine.cpp:115-135 | The gate counts its roll and uses up a forced result. |
| Engine.ChaosEngine.ExecuteStrikes | src/engine.cpp:137-190 | The strike loop refines the sweep over the selected targets. |
| Engine.ChaosEngine.StrikeTarget | src/engine.cpp:145-187 | One strike by the rule's action, with its effect on counters and budget. |
| EngineRuns.RunGuarded | src/engine.cpp:41-190 | Over any run every list, roll and strike directly follows a look at the stop flag that saw no stop. |
| EngineRuns.ShutdownSafety | src/engine.cpp:45-48 | Over any run at most one action begins once the stop flag is set: the one at that very moment, whose guard had been passed. |
| EngineLateAction.LateActionIff | src/engine.cpp:138-144 | One does begin if and only if the moment at which the flag is set is that of an action. |
| EngineLateAction.LateActionHappens | src/engine.cpp:41-190 | Every action of every run can be that one: setting the flag at its moment leaves the run the same up to and including it. |
| EngineRuns.TickAccounts | src/engine.cpp:41-116 | A tick keeps the balance, makes at most as many calls as the cycle cap and the run budget left allow, and rolls exactly when both guards pass, discovery succeeds, something matches and the mode allows it. |
| EngineRuns.RunAccounts | src/engine.cpp:89-190 | Over any run: the budget used equals the strikes and never exceeds a positive run cap; calls are strikes plus skips plus failures; errors are failures plus failed discoveries; rolls are the ticks that reached the dice; dry-run and discover-only make no call. |
| EngineRuns.SweepAttempts | src/engine.cpp:137-170 | A sweep attempts an initial segment of its targets in order: all of them if no stop is seen, none in dry-run. |
| EngineRuns.TickAttempts | src/engine.cpp:63-107 | The containers a live tick attempts are an initial segment of the matches; none unless the gate fires, the whole budgeted selection if it fires and no stop is seen. |
| EngineRuns.TickGate | src/engine.cpp:115-122 | A forced result is used by exactly the next tick that reaches the dice, in place of a roll. |
| EngineRuns.CertainGates | src/chaos.cpp:37-56 | After any run, probability zero never fires and probability one always does. |
| EngineModes.NothingStruck | src/engine.cpp:27-31 | Over any run there is no stop or kill call if discovery only is asked for, or dry-run on the command line, or in the configuration without a contrary word on the command line. |
| EngineModes.GateIsConfigured | src/engine.cpp:115-135 | After any run the gate compares its roll with the configured probability, unless a result is forced. |
| EngineModes.LiveTick | src/engine.cpp:41-110 | In live mode a tick that finds targets, whose gate opens, and that sees no stop strikes the first matching containers: the largest number that the matches, the cap per cycle and what is left of the cap per run allow, and at least one unless that cap is used up. |
| EngineModes.ShutGate | src/engine.cpp:91-107 | A tick whose gate stays shut strikes nothing. |
| EngineModes.FailureReported | src/engine.cpp:50-56 | A tick reports failure exactly if its list call failed. |
| EngineModes.TickStops | src/engine.cpp:45-48 | A tick does nothing more once it has seen the stop flag set. |
| Shutdown.ShutdownState.Request | include/forger/shutdown.hpp:51-59 | One request sets the flag and records its reason if it is the first. |
| Shutdown.AloneRequest | include/forger/shutdown.hpp:51-59 | The interleaved steps of a request that nobody disturbs amount to that, and leave nobody blocked. |
| Shutdown.NextInv | include/forger/shutdown.hpp:51-59 | Every step of every thread, every time-out and every spurious wakeup keeps the protocol's invariant. |
| Shutdown.NoLostWakeup | src/shutdown.cpp:20-24 | In every reachable state, a waiter blocked while the flag is set means that some requester has yet to notify; a waiter that returned before its time-out saw the flag. |
| Shutdown.FlagMeansReason | include/forger/shutdown.hpp:54-56 | When the mutex is free, the flag is set if and only if a real reason is recorded. |
| Shutdown.FirstReasonWins | include/forger/shutdown.hpp:48-57 | A recorded reason never changes and the flag is never cleared. |
| Shutdown.NoDeadlock | src/shutdown.cpp:20-24 | While the flag is set, some thread can take its next step until every thread has finished. |
| Shutdown.StopIsPrompt | src/shutdown.cpp:20-24 | Once the flag is set, at most five steps a thread remain in any run, so every waiter returns. |
| Shutdown.CanExpire | src/shutdown.cpp:20-24 | A blocked waiter can time out at any moment. |
| Shutdown.TimeoutEnds | src/shutdown.cpp:20-24 | In every run, whether or not the flag is set, a waiter that has timed out never blocks again and takes at most three more steps. |
| Shutdown.ExpiredReturns | src/shutdown.cpp:20-24 | With the mutex free its next three steps bring it back. |
| Shutdown.OnlyTimeExpires | src/shutdown.cpp:20-24 | Nothing but its time-out makes a wait time out. |
| Shutdown.LeavesForCause | src/shutdown.cpp:20-24 | A check lets a waiter leave exactly if the flag is set or the wait has timed out. |
| Scheduler.RunUntilShutdown | main.cpp:153-177 | The loop refines the specified rounds, its engine part is some plan of moves with one tick per recorded start, it ends early only after seeing the stop flag, and once it has seen the flag it does nothing but look once more. |
| Scheduler.RateBound | main.cpp:162-171 | For any monotone clock: tick k starts no earlier than k intervals after the loop; two ticks are never closer than their distance less one interval, so a stall causes no burst; the time left at a wait is at most one interval. |
| Scheduler.NoDrift | main.cpp:165-170 | As long as no tick stalls, the schedule stays a whole number of intervals behind its start. |
| Scheduler.NoDriftSince | main.cpp:165-170 | From a stall on the same holds, counted from the reading that ended the stall. |
| Scheduler.StallCatchesUp | main.cpp:166-169 | The round after a stall ticks at once. |
| Scheduler.RoundWaits | main.cpp:162-176 | A round waits only while the next tick is not due, and exactly for the time that is left; otherwise it ticks. |
| Scheduler.WaitIsExact | main.cpp:173-175 | For a validated interval the milliseconds are passed on unchanged if and only if the loop is at most 2^31 ms late. |
| Scheduler.WaitBound | main.cpp:173-175 | A wait is at most one interval if and only if the lateness is outside one window modulo 2^32 ms. |
| Scheduler.RunWaits | main.cpp:162-176 | The same for every wait of every run under an accepted configuration; a wait that is not late is exact and at most one interval. |
| Scheduler.LongWaitExample | main.cpp:162-175 | The window is reachable: a monotone clock under which the loop ticks once and then asks for the longest possible wait. |
| EndToEnd.SelectedTargetsAreSound | src/docker_api.cpp:16-49 | For any accepted configuration and any accepted list, every selected target is a listed container with its least rule, a valid id, and a request path that reads back as that strike. |
| EndToEnd.EveryStrikeIsSound | src/engine.cpp:137-170 | Over any run under an accepted configuration, every strike is aimed at a container of the last list received, by the first rule that hits it, with the configured timeout; its path exists and reads back as id, action and timeout. |

## Left out

- HttpChunkedMessages.ChunkedDecoding: requires at least one header line, since a head without one is not chunked in
  every fragmentation; and where there are trailer lines, that the first is a field line, which no size line can be
  (`FeedComposes` covers any bytes).
- HttpFragments.FeedComposes: requires the header limit to be at most the body limit, as the defaults are; so do
  `FragmentationIndependence`, and `Delivered` for bodies that last until the end of the stream.
- HttpClient.Request: the peer's answers are a finite script; a loop that is still waiting at its end has the outcome
  `Blocked`, and the bounds on reads say when that cannot be.
- Scheduler.RunUntilShutdown: takes a number of rounds, because the loop itself need not end. Readings of the clock
  are not placed among the engine's events.
- Engine.ChaosEngine.StrikeTarget: Docker's answer to a strike is any pair of success and status; the HTTP exchange
  behind it is modelled by `HttpClient`, and the code that joins the two (`src/docker_api.cpp:66-183`) is not.
- Shutdown.NoLostWakeup: atomics are sequentially consistent steps, and blocking on the condition variable releases
  the mutex in the same step.
- Wrap-around of `body.size() + size` at 2^64 (`src/http_socket.cpp:384`): it needs a body limit above 2^63.
- `build_http_request`, the UNIX socket transport, signals, threads and process exit: foreign calls.
- Log lines, command line, usage text, `ping`, reading the configuration file, warnings about unknown keys and
  duplicate rules, the environment's log level: no effect on the modelled state.
- The random number generator and floating-point rounding: rolls are arbitrary reals, numbers are lexemes.
