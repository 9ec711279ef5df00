# libconn: a verified model of its parsers, codecs and event loop

libconn is a C/C++ network library: an event loop with timers and buffered connections, an HTTP message parser
and URL parser, and a WebSocket frame codec. This project models these parts in Dafny and proves what they are for.
Code that works step by step in the source (loops over buffers, objects whose fields are updated) is written as Dafny
methods and classes and proved against specification functions; the theorems are about those functions.

`dafny verify dfyconfig.toml` verifies everything.

## How the files fit together

**HTTP messages.** `HttpTypes` holds the parser struct and its enumerations, `HttpAct` one pass through the big
`switch` of `http_parser_execute` on one octet, for every state of the strict build, requests and responses alike.
`HttpMachine` folds that over a buffer, with the callbacks as an event log and the mark pointers as one open mark, and
proves that cutting a stream into calls does not matter. `HttpInvariant` shows what holds in every reachable state: the
`assert`s of the source never fire, no index leaves its array, no length wraps around. `HttpRuns` gives closed forms
for names, values and bodies. `HttpParser` is the source's own form: the loops over the whole buffer with five mark
pointers, the skip-ahead for uninteresting values, whole bodies taken at once; it is proved to do exactly what the
octet-by-octet form does, up to where exactly it notices a header overflow. On top of it: `HttpMethods` and `HttpRequestLine`
(request methods and targets), `HttpNames`, `HttpLines`, `HttpLength` (header names, lines and lengths), `HttpLists`,
`HttpOptions` and `HttpTransfer` (lists in values, as the matchers for Connection and Transfer-Encoding read them),
`HttpCoding` (when F_CHUNKED is raised, in any run), `HttpResponse` (the printer, and what lists of header lines record),
`HttpBlock` (header lines, the blank line and the framing decision), `HttpStatusLine`, `HttpHead` and `HttpFraming` (responses
up to the blank line, and how they end), `HttpRequestHead` (the same for requests), `HttpBody`, `HttpChunked` and
`HttpTrailer` (bodies), `HttpRoundTrip` (the printer's inverse, for one response and for a whole connection), `HttpBrackets`
(the order of the callbacks). `HttpStatusForms`, `HttpRequestForms`, `HttpHeaderForms` and `HttpLineEnds` say exactly which
lines are taken: spaces, bare line feeds, folded lines, missing versions and reasons, empty lines.

**URLs.** `UrlAutomaton` labels the octets of a URL as the two automata of `http_parser_parse_url` do. `UrlGrammar`, `UrlServer`
and `UrlText` put a URL together from its parts, by octets alone, and prove both directions: these texts are taken and split
into those parts, and no others. `UrlParser` is the source's own form with its loops.

**WebSocket.** `WebSocketFrame` states the frame format of RFC 6455 section 5.2 and the decoding of a stream,
`WebSocketParser` is the class with its in-place decoder and the client's encoder, and both ends of a connection
together, `WsUtil` the server's encoder.

**Event loop.** `IoBuffer` is the write side of a connection against an arbitrary socket, `Heap` the array heap of
timers, `EventLoop` the pending list and the timer sweep.

## What was found on the way

* The round trip of a response through `HttpResponse::dump` and the parser is lost exactly when a header name *begins*
  with "transfer-encoding" (any case) or is "content-length": the matcher raises `uses_transfer_encoding` as soon as the
  prefix has been read and does not lower it when the name goes on.
* Only the first half of the `unhex` table is written out, so an octet above 127 counts as the hexadecimal digit 0
  (`HttpChunked.SizeLineExact`): a size line of one such octet ends a chunked body (`HttpChunked.HighOctetEnds`).
* F_CHUNKED is never lowered: after "Transfer-Encoding: chunked" a strict parser reads chunks although a later line says
  "Transfer-Encoding: gzip" (`HttpFraming.ChunkedKept`). `HttpFraming.CodedFraming` says for which heads the framing is what
  their last coding asks for. Behind "chunked", and behind a beginning of it, the matcher misses the comma, so that
  "c, chunked" is not found to be chunked (`HttpTransfer.ChunkedMissed`; exactly which values are, `HttpTransfer.ChunkedCondition`).
* With `lenient_http_headers`, a NUL is lower-cased to a space, and a NUL in front of "chunked" goes unnoticed. That is
  the only way in which F_CHUNKED can be raised behind a value that does not end with "chunked"
  (`HttpCoding.FinalCodingSound`, `HttpCoding.LenientNul`).
* A 1xx, 204 or 304 response that announces a length or a coding is taken to have a body (unless a 101 switches protocols), against section 3.3.3 of
  RFC 7230, so that the next response is swallowed (`HttpFraming.BodilessExact`, `HttpFraming.NextResponseSwallowed`); and
  `http_message_needs_eof` disagrees with the framing of a head exactly if its status has no body while its codings leave
  the end open, unless it switches protocols (`HttpFraming.EofFramingOfHead`; the input, a 304 with "Transfer-Encoding: gzip",
  is in `HttpFraming.NotModifiedDisputed`).
* Behind a list element that is the beginning of a known Connection option the matcher misses the comma, and an element
  that cannot begin a token ends its search: "Connection: c, close" does not close the connection
  (`HttpRoundTrip.CloseOverlooked`; exactly which values do, `HttpOptions.OptionCondition`).
* A folded line makes the parser forget what the value ended with: "Transfer-Encoding: chunked" with a folded line of one space
  behind it does not raise F_CHUNKED (`HttpHeaderForms.FoldForgets`, `HttpHeaderForms.FoldLosesChunked`).
* A Connection line in the trailer of a chunked message decides about the connection as one in the head does
  (`HttpTrailer.TrailedRoundTrip`).
* The 8-byte length of `build_ws_frame` leaves out the shift by 32; it is right for exactly the lengths below 2^32.
* `process_pending_event` clears the flag of an event only if the event has a callback; one without is never linked
  again (`EventLoop.EventLoop.QueueAgain`).
* `del_timer` removes the root of the heap, whichever timer it is given.
* `process_timer` looks at the root of a heap that has run empty exactly if no timer survives the sweep
  (`EventLoop.EventLoop.ProcessTimer`).
* `buildFrame` writes behind its buffer for exactly the 14 largest payload sizes that it accepts
  (`WebSocketParser.WebSocketParser.BuildFrame`), and `feedRecvData` reads behind its own for exactly the frames whose declared
  size wraps around in a `size_t` to one that has arrived (`WebSocketParser.MisjudgedLengths`, `WebSocketParser.LargestMisjudged`).

## Model

| member | source | states |
|---|---|---|
| HttpAct.Act | src/http/http_parser.c:718-2122 | every pass of the switch: a reexecution moves strictly down a finite order of states, a failing case makes no callback, marks are opened and closed only as the states before and after allow, and the user's settings stay |
| HttpMachine.SplitOnce | src/http/http_parser.c:687-710 | ending a call in the middle of a stream and re-setting the mark on entry, between two nonempty pieces, changes neither parser, count, exit nor the merged callbacks |
| HttpMachine.SplitInvariance | src/http/http_parser.c:687-2147 | for any stream and any cut into nonempty pieces, the successive calls of a caller that stops after an error or a hand-over end in the same parser fields, have consumed as many octets and, without an error, have made the same callbacks up to merging as one call |
| HttpInvariant.ActKeeps | src/http/http_parser.c:718-2122 | every case keeps the invariant behind the source's assertions: matcher index in range, no impossible header state, body lengths neither 0 nor the sentinel, chunk states only for chunked messages |
| HttpInvariant.RunKeeps | src/http/http_parser.c:712-2122 | that invariant and the bound on `nread` hold after every run of octets that was not rejected |
| HttpInvariant.ReqMethodKeeps | src/http/http_parser.c:971-1022 | the method matcher always reads inside the method's name or its terminating NUL |
| HttpInvariant.LengthKeeps | src/http/http_parser.c:1542-1570 | one digit of a Content-Length: the accumulator is exact and never reaches the sentinel |
| HttpInvariant.ChunkSizeExact | src/http/http_parser.c:2012-2047 | one digit of a chunk size: the accumulator is exact and never reaches the sentinel |
| HttpRuns.RunName | src/http/http_parser.c:1256-1391 | a run of name octets ends in the state of the letter-by-letter matcher with all octets in the mark, or in header overflow exactly when the limit is passed |
| HttpRuns.RunValue | src/http/http_parser.c:1482-1706 | the same for a run of value octets that its scan accepts |
| HttpRuns.RunValueFails | src/http/http_parser.c:1482-1706 | a run of value octets that its scan rejects makes the parser fail |
| HttpRuns.RunIdentity | src/http/http_parser.c:1944-1978 | fewer octets than are left of a Content-Length body: what was covered plus what is left is what was left before, and nothing is announced |
| HttpRuns.StepLast | src/http/http_parser.c:1944-1994 | the last octet of such a body delivers the rest and completes the message, once |
| HttpRuns.RunChunkData | src/http/http_parser.c:2078-2099 | the same conservation for the data of a chunk |
| HttpRuns.RunEof | src/http/http_parser.c:1981-1985 | a body without an end takes every octet |
| HttpParser.ScanName | src/http/http_parser.c:1256-1391 | the loop over a header name stops at the first octet that is no token, with the matcher that the single steps give |
| HttpParser.SkipGeneral | src/http/http_parser.c:1511-1530 | the skip-ahead in an uninteresting value stops at the first line end, limit or rejected octet, and nowhere earlier |
| HttpParser.ScanValue | src/http/http_parser.c:1482-1706 | the loop over a header value, with its skip-ahead, ends with the scan that the single steps give |
| HttpParser.Output | src/http/http_parser.c:80-142 | MARK and the callback macros on five mark pointers do what the one open mark of the octet form does |
| HttpParser.Octet | src/http/http_parser.c:718-721 | the `goto reexecute` loop terminates and equals the chain of cases |
| HttpParser.FieldCase | src/http/http_parser.c:1256-1391 | the whole `s_header_field` case equals running its octets one by one, in parser, callbacks, position and error; where the octets overflow the header limit, both fail, the source not before that octet and with at most the value at hand as a further callback |
| HttpParser.ValueCase | src/http/http_parser.c:1482-1706 | the whole `s_header_value` case equals running its octets one by one, in parser, callbacks, position and error; where the octets overflow the header limit, both fail, the source not before that octet and with at most the value at hand as a further callback |
| HttpParser.IdentityCase | src/http/http_parser.c:1944-1978 | taking a body in one step equals running its octets one by one |
| HttpParser.ChunkDataCase | src/http/http_parser.c:2078-2099 | taking chunk data in one step equals running its octets one by one |
| HttpParser.EofCase | src/http/http_parser.c:1981-1985 | jumping to the end of the buffer equals running its octets one by one |
| HttpParser.Parse | src/http/http_parser.c:687-2147 | the loop over the buffer, the entry marks and the final callbacks: same parser, callbacks, position and error as the fold of single octets; where that overflows the header limit, both fail, the source not before that octet and with at most one value as a further callback |
| HttpParser.HttpParser.constructor | src/http/http_parser.c:2224-2233 | `http_parser_init`: the start state of each kind, with the invariant |
| HttpParser.HttpParser.Execute | src/http/http_parser.c:641-2155 | fast form refines simple form: one call of `http_parser_execute` on any buffer, in any state reached without error, agrees with the octet-by-octet form in parser, callbacks, count and error, where after a header overflow the source may have gone on to the end of the name or value at hand, and delivered that value; a stopped parser ignores its input; an empty buffer is the end of the stream |
| HttpParser.HttpParser.ExecuteAll | src/http/http_parser.c:641-2147 | calls on any nonempty pieces of a stream that is accepted: same final parser, octet count and merged callbacks as one call |
| HttpMethods.GuessStep | src/http/http_parser.c:971-1022 | at every letter of every method name the guess is confirmed or the correction table gives the right next guess |
| HttpMethods.CorrectionSound | src/http/http_parser.c:984-1016 | a correction keeps all letters read so far and accounts for the new one |
| HttpMethods.MethodExact | src/http/http_parser.c:927-1022 | a token and a space are accepted if and only if the token is the name of a method, and then that method is reported |
| HttpRequestLine.TargetExact | src/http/http_parser.c:1024-1095 | a request target is delivered in one piece if and only if it is put together, by the octets alone, from a scheme and a server part or neither, a path, a query and a fragment; any other target is an error |
| HttpRequestLine.UrlTaken | src/http/http_parser.c:1024-1095 | the text of every URL, put together from its parts, is delivered in one piece |
| HttpRequestLine.TargetPrintable | src/http/http_parser.c:493-639 | an octet outside 33 to 126 is refused wherever it stands in a target |
| HttpRequestLine.AcceptedUrlIsTarget | src/http/http_parser.c:2422-2508 | every URL whose fields `http_parser_parse_url` can split is accepted by the message parser as a request target |
| HttpFraming.ResponseFraming | src/http/http_parser.c:731-1942 | for every version, status code (101 included), reason and list of header lines, lengths and codings anywhere among them, and every answer of on_headers_complete: the run over the head fails exactly if the lines declare a length in vain or more than one, or a length stands beside a coding that the settings do not tolerate (UNEXPECTED_CONTENT_LENGTH); otherwise it delivers the head as it is and goes on to chunks, to exactly the declared octets, to the end of the connection, to the next message or to another protocol, by a function of the answer, the lines and the status |
| HttpFraming.BehindHead | src/http/http_parser.c:2158-2205 | a response that is over at its head: the digits of its version and code are reported, and the parser waits for another response exactly if the version and the Connection lines keep the connection open, takes nothing more otherwise, and hands over exactly if the protocol changes |
| HttpFraming.BehindLength | src/http/http_parser.c:1944-2205 | the same behind a body of the declared length, delivered as it is |
| HttpFraming.BehindChunks | src/http/http_parser.c:1996-2205 | the same behind any chunked body; the two octets of the empty trailer stay counted |
| HttpFraming.CodedFraming | src/http/http_parser.c:1579-1942 | for every head with a header that begins like Transfer-Encoding: when it is accepted; that the body comes in chunks if and only if one of the Transfer-Encoding lines is found to end with "chunked"; and that this is what the last of these lines says if and only if "chunked" is found in that line or, should it not end so, in none before it |
| HttpFraming.ChunksExact | src/http/http_parser.c:1719-1745 | the flag, never lowered, says what the last Transfer-Encoding line says exactly under that condition, for every list of lines |
| HttpFraming.ChunkedKept | src/http/http_parser.c:1719-1942 | the input that shows it: "Transfer-Encoding: chunked" and "Transfer-Encoding: gzip" leave any parser in front of a chunk size |
| HttpFraming.BodilessExact | src/http/http_parser.c:731-1942 | the run over the head of a 1xx, 204 or 304 response completes the message if and only if its lengths are in order, there is none but 0 and either no header begins like Transfer-Encoding or a 101 switches protocols, the coding is not chunked and does not stand beside a length that the parser refuses |
| HttpFraming.NextResponseSwallowed | src/http/http_parser.c:731-1994 | such a response with a length k takes the next k octets of the connection, whatever they are, as its body |
| HttpFraming.EofFramingOfHead | src/http/http_parser.c:1874-2180 | for every head, by its status and lines: when it is accepted, when the run ends in a body without an end, when `http_message_needs_eof` says that it needs one, and that the two disagree if and only if the status has no body, a coding is announced, none is found to be chunked and the response does not switch protocols |
| HttpFraming.NotModifiedDisputed | src/http/http_parser.c:1874-2180 | the input that shows it: a 304 with "Transfer-Encoding: gzip" ends in a body without an end, which `http_message_needs_eof` denies |
| HttpFraming.EofNeverEnds | src/http/http_parser.c:1981-1985 | after a body without an end no further message is ever announced |
| HttpRoundTrip.ResponsesReceived | src/http/http_parser.c:2158-2203 | for every list of responses printed by dump one behind the other: they are received one after another, unchanged, up to the first whose Connection header closes the connection; no error if and only if only the last one does, and otherwise CLOSED_CONNECTION at the next one |
| HttpRoundTrip.OldVersionCloses | src/http/http_parser.c:829-2205 | the response "HTTP/1.0 200 OK" with "Content-Length: 0" is read as version 1.0 and leaves the parser closed |
| HttpNames.NameRecognised | src/http/http_parser.c:1206-1391 | the matcher ends in Content-Length and in Transfer-Encoding for exactly the spellings of those names; it raises `uses_transfer_encoding` for exactly the names that begin with "transfer-encoding" |
| HttpNames.ConnectionRecognised | src/http/http_parser.c:1206-1391 | the matcher ends in Connection for exactly the spellings of "connection" and "proxy-connection" |
| HttpNames.UpgradeRecognised | src/http/http_parser.c:1206-1391 | the matcher ends in Upgrade for exactly the spellings of that name |
| HttpOptions.OptionFold | src/http/http_parser.c:1614-1694 | the loop over a Connection value does what the option matcher alone does, whatever stands around it, for each of the three options |
| HttpOptions.OptionCondition | src/http/http_parser.c:1614-1793 | for every value and each of keep-alive, close and upgrade: the flag is raised if and only if the option stands where the search for options reaches it, element by element, and only if the value lists it; hence the value is understood as the list it is if and only if it does not list the option or has it there |
| HttpOptions.OptionExact | src/http/http_parser.c:1614-1793 | for every list of tokens of which none begins with an underscore or is a proper beginning of a known option, the flag of an option is raised if and only if one of them is that option |
| HttpOptions.CloseMissed | src/http/http_parser.c:1614-1694 | the value "c, close" lists "close" and does not raise it |
| HttpTransfer.CodingFold | src/http/http_parser.c:1579-1674 | the loop over a Transfer-Encoding value does what the coding matcher alone does, whatever stands around it |
| HttpTransfer.ChunkedCondition | src/http/http_parser.c:1579-1674 | for every value: the matcher ends at "chunked" if and only if the last coding is "chunked" and the search reaches it, element by element, and so only if the list ends with "chunked"; hence the value is understood as the list it is if and only if it does not end with "chunked" or is found to |
| HttpTransfer.ChunkedListExact | src/http/http_parser.c:1579-1674 | for every list of tokens of which none begins with an underscore and none but the last is "chunked" or a beginning of it, the matcher ends at "chunked" if and only if the last one is "chunked" |
| HttpTransfer.ChunkedMissed | src/http/http_parser.c:1579-1674 | the value "c, chunked" ends with "chunked" and is not found to |
| HttpLines.RunNamePart | src/http/http_parser.c:1206-1405 | a name, colon and space: one callback with the name, the matcher's verdict, every octet counted |
| HttpLines.RunValuePart | src/http/http_parser.c:1393-1793 | a value and CRLF: one callback with the value, or the error of a value that is refused |
| HttpHeaderForms.RunHeaderForm | src/http/http_parser.c:1206-1793 | any white space or none in front of the value and a bare line feed make no difference: the line does what the plain line with that name and value does |
| HttpHeaderForms.HeaderLineExact | src/http/http_parser.c:1206-1793 | the converse: a line is taken as a header line if and only if it has one of these forms and the plain line is taken |
| HttpHeaderForms.ValueExact | src/http/http_parser.c:1408-1530 | a value of any header but Content-Length is accepted if and only if the parser is lenient or no octet behind the first is a control octet other than HT |
| HttpHeaderForms.RunFold | src/http/http_parser.c:1719-1750 | a folded line is delivered as a value of its own, its first blank included, unless its scan refuses it |
| HttpHeaderForms.FoldForgets | src/http/http_parser.c:1408-1480 | a folded line behind an option or a coding raises no flag, whatever it holds, and neither does what stood in front of it |
| HttpHeaderForms.FoldContinues | src/http/http_parser.c:1408-1480 | behind a comma the search for options and codings goes on in the folded line as if there were no line end |
| HttpHeaderForms.FoldedLength | src/http/http_parser.c:1719-1750 | a folded line of a Content-Length may hold nothing but spaces behind its first octet, and the length stays |
| HttpHeaderForms.FoldLosesChunked | src/http/http_parser.c:1719-1793 | the input that shows it: "Transfer-Encoding: chunked" and a folded line of one space do not raise F_CHUNKED |
| HttpLineEnds.RunBreaks | src/http/http_parser.c:721-731 | any number of line ends between two messages changes nothing but the count towards the limit of the next head, which it overflows exactly if it passes the limit |
| HttpLineEnds.ClosedExact | src/http/http_parser.c:721-730 | behind the last message of a connection any octets are refused with CLOSED_CONNECTION if and only if they are not all line ends |
| HttpLineEnds.BareBlank | src/http/http_parser.c:1206-1222 | a bare line feed ends the headers with the same framing as CR LF |
| HttpLineEnds.BareTrailer | src/http/http_parser.c:1206-1222 | the same at the end of a trailer |
| HttpLineEnds.BlankEndExact | src/http/http_parser.c:1795-1798 | behind the CR of a blank line anything but a line feed is refused, before the headers are announced |
| HttpLength.LengthExact | src/http/http_parser.c:1542-1570 | for every digit string the Content-Length accumulator equals its decimal value, and fails exactly when a digit is added to a number over (2^64-1-10)/10 |
| HttpLength.LengthSteps | src/http/http_parser.c:1542-1576 | whatever octets follow the first digit: they are accepted if and only if they are digits that fit and then spaces, and the accumulator ends with their value |
| HttpLength.DecimalRoundTrip | src/http/HttpMessage.cpp:12-13 | reading a printed number gives the number back |
| HttpLength.DeclaredLength | src/http/HttpMessage.cpp:12-13 | the printed length is the body's length if and only if the body is shorter than 2^31 |
| HttpResponse.HttpResponse.Dump | src/http/HttpMessage.cpp:5-18 | the loop prints the prefix, the header lines in order, the length, a blank line and the body |
| HttpResponse.RunLine | src/http/http_parser.c:1206-1793 | one header line delivers its name and value, changes nothing else of the message but flags, length and the encoding mark, raises each of F_CHUNKED, F_UPGRADE and the three connection flags exactly if its name and value ask for it, and is refused, at the latest by the next octet, exactly if it is a Content-Length that declares no length or is not the first |
| HttpResponse.RunLines | src/http/http_parser.c:1206-1793 | any list of header lines is refused exactly if a Content-Length among them declares no length or is not the first; otherwise it delivers exactly its pairs, and records exactly the declared length and whether one of the lines looks like an encoding, is found to be chunked, names a protocol or asks for one of the connection options |
| HttpResponse.LengthAccepted | src/http/http_parser.c:1436-1576 | a nonempty value of Content-Length is accepted if and only if there was no such header before and it consists of digits, each added to a number within the limit, and spaces behind them; then their number is recorded |
| HttpStatusLine.RunStatusLine | src/http/http_parser.c:731-926 | for every version of two digits, every three-digit status code and every reason, empty or not: the status line is read as that version, that code and that reason, from a fresh or reused parser |
| HttpStatusForms.RunForm | src/http/http_parser.c:731-926 | any spaces and digits in front of the code, a missing reason and a bare line feed: such a line is read like the plain one, with the number of its digits and an empty reason |
| HttpStatusForms.StatusLineExact | src/http/http_parser.c:731-926 | the converse: a line is taken as a status line if and only if it has one of these forms, from the version to the line end |
| HttpBlock.RunBlank | src/http/http_parser.c:1795-1942 | the blank line ends the headers of any request or response and, by the answer of on_headers_complete, the flags and the length, frames the body, skips it or hands the connection over, or fails exactly if length and coding conflict, or if the coding leaves the end of a request open |
| HttpHead.RunHead | src/http/http_parser.c:731-1793 | everything in front of the blank line, for every version: refused exactly for the lengths among the lines; otherwise version, status, header pairs, length and flags are exactly those of the text, whatever follows |
| HttpRequestHead.RunRequestLine | src/http/http_parser.c:927-1204 | for each of the 34 methods, every target that goes with it and every version of two digits: the request line is read as that method, target and version, by a parser that waits for a request or for either kind of message |
| HttpRequestForms.RunRequestForm | src/http/http_parser.c:927-1204 | further spaces, a bare line feed, the ICE protocol of SOURCE and a line without a version (HTTP/0.9): such a line is read with its method, its target and the version written in it |
| HttpRequestForms.RequestLineExact | src/http/http_parser.c:927-1204 | the converse: a parser that waits for a request takes a line if and only if it has one of these forms |
| HttpRequestHead.RequestHead | src/http/http_parser.c:927-1942 | for every request line and list of header lines, and every answer of on_headers_complete: the run over the head fails exactly if the lines declare a length in vain or more than one, if a length stands beside a coding that the settings do not tolerate (UNEXPECTED_CONTENT_LENGTH), or if the coding leaves the end open (INVALID_TRANSFER_ENCODING); otherwise it delivers the head as it is and goes on to chunks, to exactly the declared octets, to the next request or to another protocol |
| HttpRequestHead.RequestExact | src/http/http_parser.c:927-1942 | whatever stands for the method and the target: the head is accepted if and only if the method is the name of one, the target goes with it, and the lines leave no doubt about length and end |
| HttpRequestHead.RequestCodings | src/http/http_parser.c:1874-1910 | a strict parser refuses a request with codings exactly if no line is found to end with "chunked", and that is what section 3.3.3 of RFC 7230 asks of the last line exactly under the condition of CodedFraming |
| HttpRequestHead.BehindHead | src/http/http_parser.c:1874-2205 | a request that is over at its head: version and method are reported, and the parser waits for another request exactly if the version and the Connection lines keep the connection open, takes nothing more otherwise, and hands over exactly if the protocol changes |
| HttpRequestHead.BehindLength | src/http/http_parser.c:1944-2205 | the same behind a body of the declared length, delivered as it is |
| HttpRequestHead.BehindChunks | src/http/http_parser.c:1996-2205 | the same behind any chunked body |
| HttpRoundTrip.DumpRoundTrip | src/http/HttpMessage.cpp:5-18 | for every header map with token names and legal values within the header limit and every body shorter than 2^31, parsing the output of dump delivers exactly those headers, the length and the body, with one completion and every octet consumed, and leaves the parser ready or closed as the Connection header says, if no name begins with "transfer-encoding" or is "content-length"; otherwise the parser fails |
| HttpRoundTrip.DumpArrives | src/http/HttpMessage.cpp:5-18 | the same, as an if and only if, for every way of cutting the printed response into calls on nonempty pieces |
| HttpRoundTrip.ResponsesArrive | src/http/http_parser.c:687-2203 | the same as ResponsesReceived for every way of cutting the stream of responses into calls on nonempty pieces |
| HttpRoundTrip.CloseOverlooked | src/http/http_parser.c:1614-1694 | two responses, the first with "Connection: c, close": both are received |
| HttpRoundTrip.LookAlikeLost | src/http/http_parser.c:1339-1350 | a concrete header that the round trip loses |
| HttpBody.IdentityConserved | src/http/http_parser.c:1944-1994 | over any sequence of calls on nonempty buffers, octets delivered plus octets left equal the declared length; the completion comes exactly when the remainder reaches 0 |
| HttpBody.DeliveriesAreOctets | src/http/http_parser.c:1944-1978 | what the body callbacks carried is the stream, in order |
| HttpChunked.RunDigits | src/http/http_parser.c:2012-2047 | for every string of what the table takes for digits the chunk-size accumulator equals its value, and fails exactly when a digit is added to a number over (2^64-1-16)/16 |
| HttpChunked.RunSizeLine | src/http/http_parser.c:1996-2076 | an accepted size line with any extension announces exactly its size and leads to the data, or after size 0 to the trailer |
| HttpChunked.SizeLineExact | src/http/http_parser.c:1996-2076 | for every size text and extension: the line is accepted if and only if the text is nonempty, consists of hexadecimal digits and octets above 127, and fits the limit; the announced size reads each octet above 127 as 0; an accepted size is the number of RFC 7230 if and only if it has no such octet |
| HttpChunked.HighOctetEnds | src/http/http_parser.c:1996-2076 | the input that shows it: a size line of one octet above 127 announces size 0, ends the body and, with an empty line, the message |
| HttpChunked.RunChunks | src/http/http_parser.c:1996-2116 | any list of nonempty chunks delivers exactly their data |
| HttpChunked.ChunkedRoundTrip | src/http/http_parser.c:1996-2116 | decoding inverts the chunked coding of RFC 7230 section 4.1: every octet consumed, exactly the callbacks of the chunks in order, one completion |
| HttpChunked.ChunkedDelivers | src/http/http_parser.c:1996-2116 | the delivered body is the concatenation of the chunks, and the message is completed once |
| HttpLineEnds.ChunkEndExact | src/http/http_parser.c:2101-2116 | of all pairs of octets behind the data of a chunk only CR LF is taken |
| HttpLineEnds.SizeEndExact | src/http/http_parser.c:2060-2064 | behind the CR of a size line only a line feed is taken |
| HttpTrailer.TrailedRoundTrip | src/http/http_parser.c:1795-2116 | a chunked body with any trailer fields: chunks, then the fields as pairs, then one completion; whether the connection stays open is decided by the lines of head and trailer together; the trailer is refused exactly for its lengths |
| HttpCoding.CodingStep | src/http/http_parser.c:1579-1674 | one more octet, NUL included, keeps the matcher's claim about the last element of the list |
| HttpCoding.RunInStep | src/http/http_parser.c:1256-1793 | in every run the matcher describes the value delivered to the user so far |
| HttpCoding.FeedAllInStep | src/http/http_parser.c:687-2147 | and across any number of calls on nonempty pieces |
| HttpCoding.HeadersChunked | src/http/http_parser.c:1719-1793 | F_CHUNKED is raised only when a header is finished whose matcher ended in "chunked" |
| HttpCoding.ChunkedMeansChunked | src/http/http_parser.c:1578-1745 | the octet that raises F_CHUNKED finds that the value just delivered ends, as a list, with the element "chunked" if and only if no NUL stands among the leading blanks of that element, which a strict parser never lets through |
| HttpCoding.FinalCodingSound | src/http/http_parser.c:1578-1745 | the same for every parser, strict or lenient, after any calls on nonempty buffers and any octets of the next call, however the value was cut or folded over lines |
| HttpCoding.LenientNul | src/http/http_parser.c:1579-1595 | the input that shows it: a lenient parser reads "Transfer-Encoding: gzip,", NUL, "chunked" without error, delivers that value and raises F_CHUNKED |
| HttpBrackets.ActMoves | src/http/http_parser.c:718-2122 | every case of the switch makes its callback where the grouping of the states allows it |
| HttpBrackets.AlwaysBracketed | src/http/http_parser.c:687-2147 | in every run without error, over any calls on nonempty buffers, the merged callbacks are well-bracketed messages: begin, URL or status, pairs of field and value, headers complete, a body or chunks of exactly the announced size with their trailer, message complete; one is unfinished exactly if the parser does not wait for a new message |
| HttpBrackets.LogBracketed | src/http/http_parser.c:687-2147 | the same for the callbacks as they were made, call by call |
| HttpBrackets.EndOfInput | src/http/http_parser.c:663-683 | an empty buffer after any calls without error: between two messages nothing happens, inside a body without an end the message is completed, anywhere else the stream ended too early and INVALID_EOF_STATE is set |
| HttpBrackets.Balanced | src/http/http_parser.c:80-142 | well-bracketed callbacks begin and complete messages in turn |
| UrlAutomaton.UrlForward | src/http/http_parser.c:493-639 | `parse_url_char` only moves forward through scheme, server, path, query and fragment |
| UrlAutomaton.HostForward | src/http/http_parser.c:2253-2333 | `http_parse_host_char` only moves forward through user information, host and port |
| UrlAutomaton.UrlRun | src/http/http_parser.c:2440-2495 | each outer field is one contiguous run of octets |
| UrlAutomaton.HostRun | src/http/http_parser.c:2336-2413 | each field of the server part is one contiguous run of octets |
| UrlAutomaton.SpansExact | src/http/http_parser.c:2422-2543 | every span covers exactly the octets that the automaton assigns to its field |
| UrlAutomaton.SpansSound | src/http/http_parser.c:2422-2543 | whenever a URL is accepted, every field that is set is nonempty and inside the text, and the fields follow one another without overlap in the order scheme, user information, host, port, path, query, fragment |
| UrlGrammar.OuterRead | src/http/http_parser.c:493-639 | every text of scheme, server part, path, query and fragment with its marks, each part present or not, is taken by the URL automaton, which labels exactly the octets of each part |
| UrlGrammar.TargetScan | src/http/http_parser.c:493-639 | the converse: the automaton takes no other text |
| UrlServer.ServerRead | src/http/http_parser.c:2253-2413 | the same for the server part: user information, host name or bracketed address with a zone, and port |
| UrlServer.ServerFound | src/http/http_parser.c:2253-2413 | its converse |
| UrlText.TextSplits | src/http/http_parser.c:2422-2513 | the round trip: a URL put together from its parts is split into exactly those parts |
| UrlText.AcceptsExact | src/http/http_parser.c:2422-2543 | http_parser_parse_url accepts a text if and only if it is put together from parts, the port has 16 bits, and CONNECT has nothing but host and port |
| UrlText.ConnectKeys | src/http/http_parser.c:2516-2520 | for CONNECT the set of fields is host and port exactly if nothing else has an octet of its own |
| UrlText.UrlIsTarget | src/http/http_parser.c:1024-1095 | every URL is a request target |
| UrlText.OriginForm | src/http/http_parser.c:573-604 | a path with a query is accepted by both parsers, with these two spans |
| UrlParser.PortDigits | src/http/http_parser.c:2514-2540 | a port consists of decimal digits inside the text |
| UrlParser.ReadPort | src/http/http_parser.c:2529-2539 | the conversion loop gives the decimal value, or refuses exactly if it exceeds 65535 |
| UrlParser.HttpParserUrl.SplitFields | src/http/http_parser.c:2422-2495 | the first loop finds exactly the spans of the URL automaton, or refuses exactly if the automaton dies |
| UrlParser.HttpParserUrl.ParseHost | src/http/http_parser.c:2336-2413 | `http_parse_host` finds exactly the spans of the host automaton, or refuses exactly if it ends in no final state |
| UrlParser.HttpParserUrl.ParseUrl | src/http/http_parser.c:2422-2543 | returns 0 if and only if the text is that of a URL put together from its parts, CONNECT has host and port only, and the port has 16 bits; then the fields are exactly the places of those parts, and the port is the value of its digits |
| WebSocketFrame.XorTwice | src/http/WebSocketParser.cpp:104-106 | masking an octet twice gives it back |
| WebSocketFrame.XorExact | src/http/WebSocketParser.cpp:104-106 | each of the eight bits of a masked octet is set if and only if the bits of octet and key differ |
| WebSocketFrame.MaskedByZero | src/http/WebSocketParser.cpp:104-106 | the key of four zeros leaves a payload as it is |
| WebSocketFrame.EncodeExact | src/http/WebSocketParser.cpp:127-173 | a frame octet by octet: FIN and opcode, mask bit and length, extended length, key and masked payload |
| WebSocketFrame.OctetsDecoded | src/http/WebSocketParser.cpp:57-121 | those octets, whatever follows them, are decoded to the opcode and the payload |
| WebSocketFrame.ReversedOrder | src/http/WebSocketParser.cpp:18-34 | reversing the octets turns network order into the order of a little-endian host |
| WebSocketFrame.DecodeSplit | src/http/WebSocketParser.cpp:54-124 | decoding what was left over together with what arrives next is as good as decoding it all at once |
| WebSocketFrame.CompleteSize | src/http/WebSocketParser.cpp:57-121 | every delivered frame shrinks the buffer by at least 2 octets |
| WebSocketFrame.FrameRoundTrip | src/http/WebSocketParser.cpp:57-121 | a frame in any of the three length encodings, masked or not, is read back whatever follows it |
| WebSocketFrame.FramesRoundTrip | src/http/WebSocketParser.cpp:54-124 | any concatenation of frames and an incomplete rest is decoded to exactly their messages and that rest |
| WebSocketParser.SwapOrder | src/http/WebSocketParser.cpp:18-52 | `ws_ntoh` and `ws_hton` reverse an even number of octets in place and touch nothing else |
| WebSocketParser.WebSocketParser.Unmask | src/http/WebSocketParser.cpp:104-106 | the in-place loop unmasks exactly the payload |
| WebSocketParser.WebSocketParser.ReadLength | src/http/WebSocketParser.cpp:63-89 | the length field is known exactly when its octets are there, and is their big-endian value |
| WebSocketParser.WebSocketParser.FeedFrame | src/http/WebSocketParser.cpp:57-121 | one round delivers and erases exactly the first frame, runs into an access behind the buffer exactly if the first frame is misjudged, or else leaves the buffer alone |
| WebSocketParser.WebSocketParser.FeedRecvData | src/http/WebSocketParser.cpp:54-125 | one call terminates and delivers exactly the messages of the buffered and the new octets, keeping the incomplete rest; it runs into an access behind the buffer exactly if that rest is misjudged |
| WebSocketParser.WebSocketParser.FeedEach | src/http/WebSocketParser.cpp:54-125 | any cut of a stream into calls delivers the same messages, leaves the same octets over and runs into a misjudged frame exactly when one call does |
| WebSocketParser.TestsExact | src/http/WebSocketParser.cpp:91-101 | the tests of the buffer against the declared size, made in a `size_t`, are passed by exactly the complete frames and the misjudged ones |
| WebSocketParser.MisjudgedLengths | src/http/WebSocketParser.cpp:91-101 | the misjudged frames are those that declare one of the ten largest lengths, as soon as the few octets have arrived that their size wraps around to |
| WebSocketParser.LargestMisjudged | src/http/WebSocketParser.cpp:54-124 | an input: ten octets that pass for a frame of 2^64 + 9 |
| WebSocketParser.MisjudgedStays | src/http/WebSocketParser.cpp:91-101 | whatever follows a misjudged frame, it stays one and is never complete |
| WebSocketParser.WebSocketParser.BuildFrame | src/http/WebSocketParser.cpp:127-173 | the send buffer begins with exactly the masked frame of the payload, octet by octet: FIN is set, the mask bit is set, and the length has the shortest encoding; a payload over the limit is refused; one within it whose frame is not, which are exactly the 14 largest sizes, fills the buffer with the beginning of the frame and runs over its end |
| WebSocketParser.FramesDelivered | src/http/WebSocketParser.cpp:54-173 | the octets of any frames, one after another and cut anywhere, that fit a `size_t`, meet the decoder's precondition and are decoded to their opcodes and payloads in order, with nothing left over and nothing misjudged |
| WebSocketParser.SendAll | src/http/WebSocketParser.cpp:127-173 | buildFrame for one payload after another puts exactly the octets of their frames on the wire, one behind the other, each with FIN set |
| WebSocketParser.Exchange | src/http/WebSocketParser.cpp:54-173 | end to end: what one end sends with buildFrame the other receives with feedRecvData, in order and unchanged, however the stream is cut |
| WebSocketParser.Hello | src/http/WebSocketParser.cpp:54-173 | the masked "Hello" of RFC 6455 section 5.7: exactly these eleven octets are sent for it, and it is delivered for them |
| WsUtil.HandShiftedExact | src/http/ws_util.c:82-91 | the hand-shifted 8-byte length is the big-endian length if and only if the length is below 2^32 |
| WsUtil.EncodedSizeOf | src/http/ws_util.c:27-51 | the calculated size is the size of the frame |
| WsUtil.CalcFrameSize | src/http/ws_util.c:27-51 | the accumulation computes that size, or overflows an `int` exactly if the size exceeds one |
| WsUtil.BuildWsFrame | src/http/ws_util.c:54-111 | writes exactly the frame, masked or not, octet by octet, in exactly the calculated number of octets, and nothing behind it |
| IoBuffer.StepConserves | src/io.c:204-401 | one call loses, repeats and reorders nothing; a call that closes the connection has sent a beginning of what it was given |
| IoBuffer.StepExact | src/io.c:204-401 | what one call does, by the socket and the room alone: it ends closed exactly if the connection was closed, the socket was asked and broke, or what had to be buffered did not fit; what is on the wire and in the buffer; that octets left over are registered for; and the answer of io_write: the octets put on the wire, or -1 exactly if the connection was closed or without a socket, the socket broke, or the payload did not fit behind what was buffered |
| IoBuffer.AcceptedKept | src/io.c:320-401 | a payload that io_write has not refused is on the wire or in the buffer as a whole, unless the rest of it did not fit, which closes the connection |
| IoBuffer.RunConserves | src/io.c:204-401 | in every interleaving of io_write and io_write_cb, with any socket: while the connection is open, octets taken followed by octets buffered equal the accepted payloads in call order, and head and tail stay within the buffer; in any case the peer has a beginning of them |
| IoBuffer.RunCloses | src/io.c:204-401 | in every interleaving the connection ends closed exactly if it was closed before or one of the calls met a broken socket or had no room |
| IoBuffer.RunKeepsAll | src/io.c:204-401 | without such a call every payload that was not refused is on the wire or buffered, in call order, and what is buffered waits for EVENT_WRITE |
| IoBuffer.RunDrains | src/io.c:204-257 | a socket that takes an octet each time it is ready empties the buffer, and the peer then has everything |
| IoBuffer.StaysClosed | src/io.c:321-327 | after a close nothing changes any more |
| IoBuffer.Io.BufferAppend | src/io.c:304-311 | appends exactly the octets, or refuses exactly if they do not fit behind the tail |
| IoBuffer.Io.IoWrite | src/io.c:320-401 | the plain TCP path of io_write: when it closes, what it answers, what it buffers and what the socket took, by the answer of write(2) and the room |
| IoBuffer.Io.IoWriteCb | src/io.c:204-257 | the plain TCP path of io_write_cb: when it closes; what the socket took leaves the buffer, and a drained buffer starts over |
| Heap.SwapUp | include/heap.h:37-44 | moving a small key up leaves only the edge above its new place in doubt |
| Heap.SwapDown | include/heap.h:59-76 | moving a large key down to the smaller child leaves only that child's place in doubt |
| Heap.WithoutOne | include/heap.h:118-122 | overwriting a slot by the last element can break the order above and below that slot, and nowhere else |
| Heap.RootIsLeast | include/heap.h:78-85 | in an ordered heap no key is smaller than the root's |
| Heap.Heap.HeapifyUp | include/heap.h:37-44 | restores the order from a violated edge above one node, keeping the nodes |
| Heap.Heap.HeapifyDown | include/heap.h:59-76 | restores the order below one node, keeping the nodes, even if the edge above it is violated |
| Heap.Heap.Insert | include/heap.h:47-56 | adds the node and keeps the order; a full heap drops the node |
| Heap.Heap.Top | include/heap.h:78-85 | a node with the least key, or null exactly for the empty heap |
| Heap.Heap.Pop | include/heap.h:88-99 | removes exactly the root and restores the order, even if the root's key was changed before |
| Heap.Heap.Remove | include/heap.h:102-124 | removes exactly one occurrence of the node from anywhere, keeps every other node, and restores the order from a two-sided violation |
| Heap.Heap.Drain | include/heap.h:78-99 | taking the top and popping until the heap is empty visits every node once, in nondecreasing order of key |
| EventLoop.QueuedOnce | src/event.c:3-11 | over any run of queueing, every event is queued once and events queued before keep their places |
| EventLoop.EventLoop.EventPending | src/event.c:3-11 | puts an event in front of the list unless it is flagged, whoever flagged it; the list stays acyclic with the flag set for its members |
| EventLoop.EventLoop.QueueEach | src/event.c:3-11 | the same over any run of calls |
| EventLoop.EventLoop.ProcessPending | src/event_loop.c:177-197 | calls each member that has a callback once, the newest first, clears exactly their flags and empties the list |
| EventLoop.EventLoop.QueueAgain | src/event_loop.c:177-197 | a member of the list that is queued again after the list was processed is on it if and only if it has a callback |
| EventLoop.EventLoop.AddTimer | src/event_loop.c:339-364 | the new timer's deadline, interval and repetitions, for every int including negative ones, and its place in the heap unless the heap is full |
| EventLoop.EventLoop.DelTimer | src/event_loop.c:380-383 | removes the root of the heap whichever timer it is given, so it removes that timer if and only if it is the root or the heap is empty |
| EventLoop.EventLoop.Expire | src/event_loop.c:110-125 | an expired root on its last repetition leaves the heap and is queued; any other gets a deadline in the future, stays in the heap and is called |
| EventLoop.EventLoop.SweepOne | src/event_loop.c:106-126 | one round deals with one more expired timer, which had not been dealt with before |
| EventLoop.EventLoop.ProcessTimer | src/event_loop.c:102-129 | the sweep terminates, calls or queues every expired timer exactly once, changes no other timer, and leaves every timer of the heap in the future; it reads the root of an empty heap if and only if no timer survives |
| EventLoop.EventLoop.EachSwept | src/event_loop.c:102-129 | what the sweep makes of each timer: one that has not expired is left alone; an expired one has a repetition less, unless it repeats for ever, and a deadline one interval from now, or leaves the heap for the pending list after the last |
| EventLoop.EventLoop.RunExpired | src/event_loop.c:144-148 | the sweep and the pending events together call every expired timer that has a callback exactly once, or, exactly if no timer survives, the sweep runs into the empty heap before any of them is called |

## Left out

- The single-octet cases of `http_parser_execute` are modelled once, as the function `HttpAct.Act`, which the method
  `HttpParser.Octet` calls; the struct's fields are held as one record that the class `HttpParser` reassigns.
- User callbacks are taken to return 0, except on_headers_complete, whose answer 0, 1 or 2 is a parameter of a run;
  callbacks that fail, pause or change the parser are not modelled, nor is `http_parser_pause`.
- The non-strict build (HTTP_PARSER_STRICT = 0) and buffers within 80 KiB of 4 GiB, where `nread` could wrap around in
  its 32 bits.
- HttpParser.HttpParser.Execute: after an error the header matcher's state and `nread` are not part of the comparison;
  the source leaves them where its local copies happened to be, and no later call reads them. Where the octet form
  overflows the header limit, the source counts the run of name or value octets only behind its loop, and may report
  another error that it found behind the limit; which one, and at which octet, is left open.
- HttpParser.Parse: leaves the same open after a header overflow.
- HttpParser.FieldCase: leaves the same open after a header overflow.
- HttpParser.ValueCase: leaves the same open after a header overflow.
- `http_parser_set_max_header_size` (src/http/http_parser.c:2573): the model fixes the limit at its default of 80 KiB.
- HttpMachine.SplitInvariance: its caller stops after an error or a hand-over; the source would read the octets of a further
  call as another message. An empty buffer, which stands for the end of the stream, is a case of HttpParser.Execute.
- HttpRequestHead.RequestHead: is about heads written in the plain form; the other forms of their lines are those of
  HttpRequestForms, HttpStatusForms, HttpHeaderForms and HttpLineEnds.
- HttpRequestForms.RequestLineExact: is about a parser for requests; one for either kind of message decides at the second
  octet.
- src/http/HttpParser.cpp, the C++ wrapper around the parser, src/http/HttpRouter.cpp and the status and errno texts.
- The order in which the header map is iterated by `dump`: any order is covered, as a sequence of headers.
- `feedRecvData` without an onMessage callback never erases its buffer; the model has the callback set. It delivers
  frames and does not join fragments, as in the source.
- What an access behind a buffer does (`feedRecvData`, `buildFrame`) or an access through the root of an empty heap
  (`process_timer`): the methods stop there and say so in an out-parameter.
- WebSocketParser.WebSocketParser.FeedEach: requires fewer than 2^64 octets in the buffer and the whole stream, as do
  FeedRecvData and FeedFrame for theirs.
- UrlParser.HttpParserUrl.ParseUrl: requires a text of at most 65535 octets, where the 16-bit offsets of the source wrap.
- UrlParser.HttpParserUrl.SplitFields: requires the same.
- UrlParser.HttpParserUrl.ParseHost: requires the same.
- WsUtil.BuildWsFrame: requires the frame size to fit an `int`, since the source accumulates it in one.
- The octets of the random mask and the clock are parameters; malloc is taken to succeed.
- The SSL path of io.c, the user's write callback, read path, timeouts and mutexes; threads and `loop_post_event`.
- IoBuffer.Io.IoWriteCb: on a write error the source calls `io_close` while it holds `write_mutex`, which `io_close`
  locks again (src/io.c:209, src/io.c:240, src/event_loop.c:288); the model closes the connection there, without mutexes.
- EventLoop.EventLoop.ProcessTimer: requires positive timeouts, without which the sweep need not end, and callbacks that
  leave the heap alone; the 64-bit wrap-around of the deadlines that the sweep sets is not modelled.
- EventLoop.EventLoop.RunExpired: requires the same.
- `reset_timer` pops the root of the heap whatever timer it is given, so it keeps the heap right only for the root; it
  is not modelled.
- EventLoop.EventLoop.ProcessPending: callbacks that queue events are not modelled; the source forgets such events when
  it empties the list. Freeing of objects is left out.
- src/base64.c, src/thread_pool.c, src/Buffer.cpp and the dispatchers, which would add easy members only;
  `ws_encode_key`, which rests on a cryptographic library.
