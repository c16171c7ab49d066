# A model of the telephony services' state machines and formats

This project models, in Dafny, the parts of nine small telephony services that carry an algorithm or a state
machine, and proves what those parts promise. `dafny verify dfyconfig.toml` checks all of it.

| files | component |
|---|---|
| `Sdp`, `SdpForms`, `SdpRoundTrip`, `SdpStability`, `SdpGrammar`, `SdpCodecs`, `SdpReading` | the parser and printer of session descriptions (sections 5 and 9 of RFC 8866) and the codec replacement |
| `Translator`, `TranslatorLaws` | the conversions of session descriptions between SIP and WebRTC |
| `EventBuffer`, `EventPipeline`, `EventDrain` | the event socket's overflow buffer and the goroutines around it |
| `CircuitBreakers`, `MonitorRace`, `ConnectionManager` | the two circuit breakers, the interleaved queries of the monitor's, and the reconnection loop |
| `CallMachine`, `CallMachineLaws`, `CallEvents` | the call state machine with its delayed cleanups |
| `LogAggregator`, `LogAggregatorLaws`, `Uuids` | the bounded log with its indexes |
| `RateLimiter` | the in-memory rate limiter |
| `WireGuard`, `WireGuardLaws`, `IpAddresses` | the peer manager, the address allocator and the interface's peer list |
| `NgClient`, `NgProtocol` | the ng control protocol's client: framing and correlation by cookie |
| `Mos` | the voice quality estimate (the rating and its mapping in Annex B of ITU-T G.107) |
| `Common`, `Text` | results, sequences, and the parts of Go's `strings` and `strconv` that are used |

How the model is built:

- An object whose methods update its fields is a class with those fields. Each method is proved equal to a function
  on the object's value (`View()`), and the theorems are about that function: over every sequence of calls, or over
  every interleaving of atomic steps for goroutines that share state. `EventPipeline.OfferIsSteps`,
  `EventPipeline.ReplayIsSteps`, `NgProtocol.HandlingIsTwoSteps` and `MonitorRace.QueryIsThreeRegions` connect a
  method with the steps it stands for.
- What an operation does is also said in plain terms, without the functions the methods are proved equal to: the names
  of the events, the fields of a line, the conditions of a filter, the numbers of the estimate (`CallEvents`,
  `SdpReading`, `LogAggregatorLaws.QueryMembers`, `TranslatorLaws.PairsArePutIn`, `Mos.EstimateInFull`).
- Time is an integer handed in wherever the code reads its clock, once per operation. Theorems about runs ask for a
  clock that does not run back only where they need it.
- A text is a sequence of characters; `int` values that are parsed or printed are held to 64 bits where the code's
  `strconv` is; the packet counters wrap at 64 bits.
- Random keys, cookies, the JSON decoder, and the outcomes of connecting, reading and writing are parameters.

Where a promise is not kept by the code on all inputs, the theorem says exactly when it is:

- A printed session parses back to itself if and only if it is printable and in normal form: `Parse` has no case for
  `i=`, reads TTL and count as fields though they are printed behind slashes, and trims every line.
- The `README.md` of the event socket service says that the circuit breaker opens after five failures in a row and
  closes after three successes. In the reconnection loop a recorded failure always follows a recorded success, so with
  a threshold of two or more the breaker never opens (`ConnectionManager.BreakerStaysClosed`), and one success closes
  it. The documented retry intervals are those of the code (`ConnectionManager.DocumentedSleeps`). The same document
  promises that the buffer removes duplicates; no repetition is taken for one (`EventPipeline.RepetitionsAreHandled`).
- Events are handled in the order they are read as long as none has found the client channel full
  (`EventPipeline.OrderIsKept`); past that the order can be lost (`EventPipeline.SecondOvertakesFirst`).
- A buffer smaller than a full batch of one hundred can take the process down (`EventPipeline.DiesOnlyOnSmallBuffers`).
- The monitor's breaker gives up its lock in the middle of a query. It says open exactly when
  the history of failures does and no query has written half-open over the last of them (`MonitorRace.AskedByHistory`);
  the two part in some run exactly when the timeout is not negative (`MonitorRace.RaceHidesFailure`). The interrupted
  query itself answers without another look at the clock (`MonitorRace.ReturnAnswers`).
- An event the call machine refuses can still have changed the call (`CallMachineLaws.RefusedEventStillWrites`).
- A log of size zero answers queries with entries it no longer holds; entry identifiers need not be unique.
- The rate limiter lets through up to one request less than twice its limit within a window's length, and that number
  is reached.
- Addresses leave the subnet when its prefix leaves less than the whole last byte to hosts
  (`WireGuardLaws.LiveAddressesInSubnet`).
- The loss rate goes wrong when the sum of the packet counters wraps (`Mos.LossNeverHelpsIff`).

## Model

| member | source | states |
|---|---|---|
| Sdp.SessionDescription.Parse | rtpengine-media/internal/sdp/parser.go:81-169 | A text parses to a new session object holding what the line-by-line reading of the text gives, or fails with the error of its first bad line; CRLF text, else LF text |
| Sdp.SessionDescription.AcceptLines | rtpengine-media/internal/sdp/parser.go:97-162 | The loop over the lines: blank lines and lines whose second character is not '=' change nothing, the first bad line stops it |
| Sdp.SessionDescription.Accept | rtpengine-media/internal/sdp/parser.go:110-161 | One field goes to the open media section if there is one, otherwise to the session; `m=` closes the section before it; unknown types, `i=` among them, are ignored |
| Sdp.SessionDescription.Print | rtpengine-media/internal/sdp/parser.go:172-210 | The printed text of the object's value |
| Sdp.SessionDescription.ReplaceCodecs | rtpengine-media/internal/sdp/parser.go:240-264 | Every media section, rewritten in place, has the codecs' payload types as formats, their rtpmap attributes first and its other attributes after them; the rest of the session is unchanged |
| Sdp.PrintMedia | rtpengine-media/internal/sdp/parser.go:351-377 | The printed text of a media section |
| Sdp.PrintConnection | rtpengine-media/internal/sdp/parser.go:304-312 | TTL and count go behind slashes as far as they are positive |
| Sdp.PrintBandwidth | rtpengine-media/internal/sdp/parser.go:189-191 | One `b=` line per bandwidth, in order, after the parts so far |
| Sdp.PrintTiming | rtpengine-media/internal/sdp/parser.go:193-195 | One `t=` line per timing, in order, after the parts so far |
| Sdp.PrintAttributes | rtpengine-media/internal/sdp/parser.go:197-203 | One `a=` line per attribute, in order; no colon without a value |
| Sdp.GetCodecs | rtpengine-media/internal/sdp/parser.go:213-226 | The codecs of the readable rtpmap attributes, in order |
| SdpRoundTrip.FieldLine | rtpengine-media/internal/sdp/parser.go:98-108 | A printed line of any field reaches its field parser with only its trailing white space gone |
| SdpRoundTrip.OriginComesBack | rtpengine-media/internal/sdp/parser.go:117-122 | A printed `o=` line parses to its origin |
| SdpRoundTrip.ConnectionComesBack | rtpengine-media/internal/sdp/parser.go:281-312 | A printed `c=` line parses to the connection with TTL and count folded into the address: written with slashes, read by spaces |
| SdpRoundTrip.AttributeComesBack | rtpengine-media/internal/sdp/parser.go:379-385 | A printed `a=` line parses to its attribute, a valueless name trimmed on the right |
| SdpRoundTrip.BandwidthComesBack | rtpengine-media/internal/sdp/parser.go:314-320 | A printed `b=` line parses to its bandwidth |
| SdpRoundTrip.TimingComesBack | rtpengine-media/internal/sdp/parser.go:322-328 | A printed `t=` line parses to its timing, also when the timing is a single field |
| SdpRoundTrip.MediaHeadComesBack | rtpengine-media/internal/sdp/parser.go:330-349 | A printed `m=` line with at least one format opens a section with its type, port, protocol and formats |
| SdpRoundTrip.MediaComesBack | rtpengine-media/internal/sdp/parser.go:351-377 | All lines of a printed section parse into that section, its title lost |
| SdpRoundTrip.PrintedLines | rtpengine-media/internal/sdp/parser.go:209-209 | The printed text splits into exactly the printed lines and one empty line: no value breaks a line |
| SdpRoundTrip.ParseOfPrint | rtpengine-media/internal/sdp/parser.go:81-210 | For any number of attributes, bandwidths, timings and sections: printing a printable session and parsing the text succeeds and gives the session with TTL and count folded, titles gone and valueless names trimmed |
| SdpRoundTrip.RoundTrip | rtpengine-media/internal/sdp/parser.go:81-210 | For a printable session the round trip gives the same session, raw text aside, if and only if it is in normal form |
| SdpStability.RoundTripExactly | rtpengine-media/internal/sdp/parser.go:81-210 | For every session whatever: the round trip succeeds with the same session, raw text aside, if and only if the session is printable and in normal form |
| SdpStability.ParseFieldKeeps | rtpengine-media/internal/sdp/parser.go:110-161 | Whatever field is accepted, what has been built so far stays printable; only `o=` sets the origin |
| SdpStability.ParsedIsPrintable | rtpengine-media/internal/sdp/parser.go:81-169 | Every session the parser accepts is printable and has no titles, except for a blank origin when there was no `o=` line |
| SdpStability.NoOriginIsRefused | rtpengine-media/internal/sdp/parser.go:117-121 | Printing a session with a blank origin gives a text the parser refuses |
| SdpStability.ReprintSame | rtpengine-media/internal/sdp/parser.go:172-210 | Printing what came back equals the first print if and only if there is no title and no valueless attribute name ends in white space |
| SdpStability.ParsedIsTidy | rtpengine-media/internal/sdp/parser.go:97-162 | What the parser builds is tidy if and only if no line of the text, once trimmed, is `a=`, a name that ends in white space and has no colon, a colon and nothing more |
| SdpStability.PrintingIsStable | rtpengine-media/internal/sdp/parser.go:81-210 | For every accepted text: printing, parsing and printing again is stable if and only if some line of the text is an `o=` line and none is an attribute line of that form; both halves are about the lines of the text |
| SdpGrammar.PrintedInOrder | rtpengine-media/internal/sdp/parser.go:172-210 | The printed lines are session lines, then each section's lines, each group in the order of the grammar in section 9 of RFC 8866 |
| SdpGrammar.HeaderInOrder | rtpengine-media/internal/sdp/parser.go:172-203 | The session-level lines come in the grammar's order for every session |
| SdpGrammar.MediaInOrder | rtpengine-media/internal/sdp/parser.go:351-377 | A section's lines come in the grammar's order for every section |
| SdpCodecs.RtpmapRoundTrip | rtpengine-media/internal/sdp/parser.go:246-253 | The rtpmap attribute written for a codec reads back as that codec with one channel if and only if its name has no slash |
| SdpCodecs.RtpmapsHoldCodecs | rtpengine-media/internal/sdp/parser.go:213-253 | The codecs read from the attributes written for a list of codecs are that list, with one channel each, if and only if no name has a slash |
| SdpCodecs.ReplacedCodecsComeBack | rtpengine-media/internal/sdp/parser.go:213-264 | For a session printable but for formats a section may lack: after replacing codecs, printing and parsing, every section has formats equal to the payload types and all other attributes in order, and exactly the given codecs in order if and only if no name has a slash |
| SdpCodecs.NoCodecsIsRefused | rtpengine-media/internal/sdp/parser.go:332-334 | Replacing by no codecs leaves an `m=` line the parser refuses, whatever formats the sections had |
| SdpCodecs.CodecsAreNeeded | rtpengine-media/internal/sdp/parser.go:240-264 | The replaced session parses again if and only if there was a codec or there was no section, whatever formats the sections had |
| SdpReading.LineBreaksAreEqual | rtpengine-media/internal/sdp/parser.go:91-94 | Lines without a break in them, joined by LF or by CRLF, parse to the same error or the same session, the raw text aside |
| SdpReading.BreaksOfText | rtpengine-media/internal/sdp/parser.go:91-94 | A text with a CRLF anywhere is broken at CRLF only, any other at each LF |
| SdpReading.ReadConnection | rtpengine-media/internal/sdp/parser.go:281-302 | A `c=` line of tokens: fewer than three are an error, the fourth is the TTL and the fifth the count, zero where absent or unreadable; it goes to the open section or else to the session |
| SdpReading.ReadTtlAndCount | rtpengine-media/internal/sdp/parser.go:291-300 | The first number behind the address is the TTL and the second the count |
| SdpReading.ReadOrigin | rtpengine-media/internal/sdp/parser.go:266-279 | An `o=` line of tokens: the first six in their places, fewer than six are an error |
| SdpReading.ReadMediaLine | rtpengine-media/internal/sdp/parser.go:330-349 | An `m=` line of tokens: the port is the number before the first slash of the second token, the formats are the tokens from the fourth on; fewer than four tokens and a bad port are errors of their own; the open section is closed |
| SdpReading.ReadTimingLine | rtpengine-media/internal/sdp/parser.go:322-328 | A `t=` line of tokens: the first two of them, or the single one |
| SdpReading.ReadVersion | rtpengine-media/internal/sdp/parser.go:110-116 | A `v=` line is a number or an error that names the text |
| SdpReading.ReadAttributeLine | rtpengine-media/internal/sdp/parser.go:379-385 | An `a=` line with and without a colon |
| SdpReading.ReadBandwidthLine | rtpengine-media/internal/sdp/parser.go:314-320 | A `b=` line with and without a colon |
| SdpReading.ReadOtherLine | rtpengine-media/internal/sdp/parser.go:97-162 | A line of another type, too short, or without '=' in the second place says nothing, once trimmed |
| SdpReading.NothingIsSaid | rtpengine-media/internal/sdp/parser.go:81-89 | A text of such lines alone parses to the empty session |
| SdpReading.FirstBadLine | rtpengine-media/internal/sdp/parser.go:97-162 | The error of a text is that of its first bad line, whatever follows |
| SdpReading.WrittenConnection | rtpengine-media/internal/sdp/parser.go:304-312 | The printed connection character by character, the TTL before the count |
| SdpReading.WrittenSection | rtpengine-media/internal/sdp/parser.go:351-377 | The printed section part by part, each with its fields in order |
| SdpReading.WrittenSession | rtpengine-media/internal/sdp/parser.go:172-210 | The printed session part by part, each with its fields in order |
| SdpReading.ReadCodec | rtpengine-media/internal/sdp/parser.go:387-420 | A codec's text with its channels; one channel where they are absent or unreadable; none without a rate |
| SdpReading.UnreadableCodec | rtpengine-media/internal/sdp/parser.go:388-396 | No codec without a readable payload type before a space |
| SdpReading.UnreadableRate | rtpengine-media/internal/sdp/parser.go:398-406 | No codec without a readable rate behind a slash |
| SdpReading.ReplacedSections | rtpengine-media/internal/sdp/parser.go:240-264 | Section by section: payload types as formats, `pt name/rate` attributes in the codecs' order, then the attributes not named rtpmap in order; nothing else changes |
| SdpReading.ListedCodecs | rtpengine-media/internal/sdp/parser.go:213-226 | The codecs are those of exactly the rtpmap attributes that can be read, at increasing places |
| Text.AtoiExactly | rtpengine-media/internal/sdp/parser.go:112-115 | What is read as a number: exactly the decimal notations of the 64-bit integers, with any zeros before and a plus, a minus or no sign |
| Text.ItoaIsDecimal | rtpengine-media/internal/sdp/parser.go:247-247 | What is written for a number is decimal notation |
| Text.SpacesAre | rtpengine-media/internal/sdp/parser.go:98-98 | What is trimmed and what separates tokens: the white space of Unicode |
| Text.ReplaceFirstIs | webrtc-gateway/internal/sip/translator.go:499-500 | Only the first occurrence is replaced |
| Translator.ConvertWebRTCSDPToSIP | webrtc-gateway/internal/sip/translator.go:476-505 | The text is split at CRLF, stripped lines are dropped, `m=` lines are downgraded, and the rest is joined again |
| Translator.ConvertSIPSDPToWebRTC | webrtc-gateway/internal/sip/translator.go:508-528 | `m=` lines are upgraded, and the DTLS pair follows each first `a=rtcp:` line of a section, where a section is described by the lines themselves and not by a flag |
| TranslatorLaws.LineRoundTrip | webrtc-gateway/internal/sip/translator.go:499-517 | An upgraded media line is downgraded to itself if and only if it names no `UDP/TLS/RTP/SAVP`: the first occurrence replaced is the one inserted |
| TranslatorLaws.ConversionRoundTrip | webrtc-gateway/internal/sip/translator.go:476-528 | Converting to WebRTC and back gives the text back if and only if no line is one that is stripped and no media line names `UDP/TLS/RTP/SAVP` |
| TranslatorLaws.BackStripsInserted | webrtc-gateway/internal/sip/translator.go:480-526 | On the way back exactly the inserted lines and whatever was strippable go |
| TranslatorLaws.OnePairPerSection | webrtc-gateway/internal/sip/translator.go:513-525 | Within a media section the pair follows the first `a=rtcp:` line and no other |
| TranslatorLaws.NoPairBeforeMedia | webrtc-gateway/internal/sip/translator.go:512-525 | Before the first media line nothing is inserted |
| TranslatorLaws.WebRtcTextLines | webrtc-gateway/internal/sip/translator.go:510-527 | The lines of the WebRTC text are all lines in order, upgraded, with the pairs put in: joining and splitting lose nothing |
| TranslatorLaws.PairsArePutIn | webrtc-gateway/internal/sip/translator.go:508-528 | With `out` the lines of the WebRTC text: line `i` stands at `i` plus twice the number of first `a=rtcp:` lines before it, with the first profile name of a media line exchanged; right behind a first `a=rtcp:` line stand the setup line and the fingerprint line of 32 zero bytes; nothing else is added |
| TranslatorLaws.SipTextLines | webrtc-gateway/internal/sip/translator.go:478-504 | The lines of the SIP text are exactly the lines not stripped, in order, downgraded |
| TranslatorLaws.StrippedIsLeftOut | webrtc-gateway/internal/sip/translator.go:476-505 | The lines of the SIP text come from increasing places, exactly those whose line does not begin in one of the five ways |
| TranslatorLaws.DowngradedLine | webrtc-gateway/internal/sip/translator.go:498-501 | Each in its SIP form: of a media line the first SAVPF, then the first SAVP is exchanged for AVP |
| TranslatorLaws.DowngradeCount | webrtc-gateway/internal/sip/translator.go:499-500 | How many profile names the two replacements take out of a line, SAVPF and SAVP counted apart |
| TranslatorLaws.DowngradeTwice | webrtc-gateway/internal/sip/translator.go:498-501 | A second downgrade leaves a line alone if and only if it named SAVP at most once, or twice with one SAVPF |
| TranslatorLaws.ConversionTwice | webrtc-gateway/internal/sip/translator.go:476-505 | Converting to SIP a second time changes nothing if and only if every media line settles at once in that sense |
| EventBuffer.Buffer.Enqueue | esl-resilience/internal/esl/buffer.go:55-74 | Into the channel while it has room, which for a channel without capacity means straight to a waiting batcher; else past the channel into the kept events, dropping and counting the oldest of them if there is one |
| EventBuffer.Buffer.Dequeue | esl-resilience/internal/esl/buffer.go:76-89 | Takes and counts the oldest kept event, or nothing |
| EventBuffer.Buffer.Flush | esl-resilience/internal/esl/buffer.go:97-107 | Hands over all kept events and empties them |
| EventBuffer.Buffer.ProcessBatch | esl-resilience/internal/esl/buffer.go:147-162 | The eviction loop computes, in one go, the kept events and the batch when they fit and all but the oldest batch-length many otherwise; it dies if and only if the batch is longer than the buffer |
| EventBuffer.Buffer.Receive | esl-resilience/internal/esl/buffer.go:128-135 | One event moves from the channel to the batch, which is full at one hundred |
| EventBuffer.BatchIsAccounted | esl-resilience/internal/esl/buffer.go:147-162 | A processed batch keeps the bound, drops a prefix of what was there, and size plus drops grow by the batch |
| EventBuffer.LatestAreKept | esl-resilience/internal/esl/buffer.go:55-74 | Any number of events while nobody receives: the channel takes the first it has room for; of the kept and the others the latest stay, as many as were kept, at least one; each event displaced is counted |
| EventPipeline.Client.Offer | esl-resilience/internal/esl/client.go:249-257 | An event goes to the client channel, or when that is full to the buffer, or when there is none nowhere |
| EventPipeline.WithoutBuffer | esl-resilience/internal/esl/client.go:249-257 | Without a buffer the channel keeps the first events it has room for, in order, and the others are lost |
| EventPipeline.WithBuffer | esl-resilience/internal/esl/client.go:249-257 | With a buffer the channel keeps the first events it has room for, in order, and the others go to the buffer in order |
| EventPipeline.Client.ReplayBufferedEvents | esl-resilience/internal/esl/client.go:303-323 | The kept events are flushed and offered again one by one, those that do not fit to the buffer |
| EventPipeline.OfferIsSteps | esl-resilience/internal/esl/client.go:249-257 | The method's one call is one to three uninterrupted steps of the interleaved model |
| EventPipeline.ReplayIsSteps | esl-resilience/internal/esl/client.go:313-319 | So is the replay loop, event by event, while the batcher does not wait |
| EventPipeline.StepConserves | esl-resilience/internal/esl/buffer.go:55-162 | Every step of every goroutine keeps each event in exactly one place and the drop counter right |
| EventPipeline.StepIsBounded | esl-resilience/internal/esl/buffer.go:117-162 | Every step keeps every queue within its bound, and kills the process only with a batch longer than the buffer |
| EventPipeline.EveryEventIsAccountedFor | esl-resilience/internal/esl/client.go:236-323 | Over every interleaving of reader, event processor, batcher, tick and replay, and for every buffer size, zero included: the multiset of events read is that of handled, client channel, buffer channel, batch, kept, in hand and dropped together; `dropped` counts; queues keep their bounds |
| EventPipeline.NothingIsHandledTwice | esl-resilience/internal/esl/client.go:262-271 | If no two events read are equal, no event is handled twice and none is handled and dropped |
| EventPipeline.OrderIsKept | esl-resilience/internal/esl/client.go:236-271 | As long as no event has found the client channel full, the events handled, queued and in hand are, in this order, the events read, and nothing is buffered or dropped |
| EventPipeline.SecondOvertakesFirst | esl-resilience/internal/esl/buffer.go:55-74 | Past a full channel order is lost: for every buffer size, of two events read one after the other the second is in line for its handler while the first is not |
| EventPipeline.RepetitionsAreHandled | esl-resilience/internal/esl/client.go:236-271 | Nothing is taken for a duplicate: every sequence of events, repetitions included, is handled as it is in some run |
| EventPipeline.DiesOnlyOnSmallBuffers | esl-resilience/internal/esl/buffer.go:121-156 | A run in which the batcher's slice expression is out of range exists if and only if the buffer is smaller than a batch of one hundred |
| EventDrain.NothingIsStuck | esl-resilience/internal/esl/buffer.go:55-162 | After any run, all that was read can still come to be handled or dropped, with nothing left on its way, if and only if the process is alive and the batch is no longer than the buffer; then the events read are those handled and those counted as dropped |
| CircuitBreakers.CircuitBreaker.IsOpen | esl-resilience/internal/esl/circuit_breaker.go:33-47 | Open turns half-open once the timeout is over; answers whether the state is open |
| CircuitBreakers.CircuitBreaker.RecordSuccess | esl-resilience/internal/esl/circuit_breaker.go:49-55 | Failures back to zero, state closed |
| CircuitBreakers.CircuitBreaker.RecordFailure | esl-resilience/internal/esl/circuit_breaker.go:57-67 | One more failure with its time; open from the threshold on |
| CircuitBreakers.EnhancedMonitor.RecordCircuitBreakerFailure | esl-resilience/internal/monitoring/circuit_breaker.go:9-23 | One more failure; from the threshold on open, with its time |
| CircuitBreakers.EnhancedMonitor.RecordCircuitBreakerSuccess | esl-resilience/internal/monitoring/circuit_breaker.go:25-35 | Failures back to zero, an open or half-open state closed |
| CircuitBreakers.EnhancedMonitor.CheckState | esl-resilience/internal/monitoring/circuit_breaker.go:38-42 | First locked region: the state, unless it is open and its time is over |
| CircuitBreakers.EnhancedMonitor.MarkHalfOpen | esl-resilience/internal/monitoring/circuit_breaker.go:43-46 | Second locked region: half-open, whatever the state |
| CircuitBreakers.EnhancedMonitor.ReadState | esl-resilience/internal/monitoring/circuit_breaker.go:47-52 | Third locked region: the state, without a look at the clock |
| CircuitBreakers.EnhancedMonitor.GetCircuitBreakerState | esl-resilience/internal/monitoring/circuit_breaker.go:37-53 | The three regions uninterrupted: open turns half-open once the timeout is over; answers the state |
| CircuitBreakers.EnhancedMonitor.IsCircuitBreakerOpen | esl-resilience/internal/monitoring/circuit_breaker.go:55-58 | Whether the state that query answers, uninterrupted, is open |
| CircuitBreakers.BreakerTracksHistory | esl-resilience/internal/esl/circuit_breaker.go:33-67 | The event socket's breaker's fields, told from the failures since the last success alone |
| CircuitBreakers.MonitorTracksHistory | esl-resilience/internal/monitoring/circuit_breaker.go:9-53 | The same for the monitor's breaker, which keeps a time only when it opens |
| CircuitBreakers.BreakerAnswersHistory | esl-resilience/internal/esl/circuit_breaker.go:33-67 | After any calls on a forward clock it says open if and only if the failures since the last success reach the threshold and the last is no older than the timeout |
| CircuitBreakers.MonitorAnswersHistory | esl-resilience/internal/monitoring/circuit_breaker.go:9-58 | The same of the monitor's breaker |
| CircuitBreakers.BreakersAgree | esl-resilience/internal/monitoring/circuit_breaker.go:9-58 | Run by run the two breakers give the same answers, for every threshold and timeout |
| MonitorRace.StateByHistory | esl-resilience/internal/monitoring/circuit_breaker.go:9-53 | Over every interleaving of calls and of the three regions of any number of queries, the monitor is open if and only if the failures since the last success reach the threshold and no query has written half-open over the last of them |
| MonitorRace.AskedByHistory | esl-resilience/internal/monitoring/circuit_breaker.go:37-58 | So a query begun now would say open if and only if the history does and no query has written over its last failure |
| MonitorRace.RaceHidesFailure | esl-resilience/internal/monitoring/circuit_breaker.go:42-46 | A run on a forward clock in which the history says open and the monitor does not exists if and only if the timeout is not negative, whatever the threshold |
| MonitorRace.QueryIsThreeRegions | esl-resilience/internal/monitoring/circuit_breaker.go:37-53 | The three regions, uninterrupted, are the query taken as a whole |
| MonitorRace.RegionsInOrder | esl-resilience/internal/monitoring/circuit_breaker.go:38-52 | A query's regions come in their order, each once; only a success, a failure and the write of half-open change the monitor |
| MonitorRace.CheckAnswers | esl-resilience/internal/monitoring/circuit_breaker.go:38-52 | A query answered at its check says open if and only if the history does and no other query has written over its last failure |
| MonitorRace.ReturnAnswers | esl-resilience/internal/monitoring/circuit_breaker.go:47-52 | A query answered in its third region says open if and only if there are enough failures, none of them written over; this is what the history says at that moment if and only if there are not enough failures, or the last is older than the timeout exactly when it is written over |
| MonitorRace.OpenWasRight | esl-resilience/internal/monitoring/circuit_breaker.go:42-52 | An answer of open in the third region was right by the history at the moment of a failure between the query's check and its return, if and only if the timeout is not negative |
| MonitorRace.ReturnAnswersStale | esl-resilience/internal/monitoring/circuit_breaker.go:47-52 | For every threshold and timeout there is a run on a forward clock in which a query answers open in its third region where the history does not say open any more |
| ConnectionManager.Client.Run | esl-resilience/internal/esl/client.go:99-151 | The reconnection loop's actions, attempts and breaker for any sequence of connect and session outcomes |
| ConnectionManager.BreakerStaysClosed | esl-resilience/internal/esl/client.go:133-144 | With a threshold of two or more the breaker is closed after every run and the waiting branch is never taken, whatever fails |
| ConnectionManager.BreakerOpensOnlyAtOne | esl-resilience/internal/esl/client.go:107-111 | Some run on a forward clock waits for the breaker if and only if the threshold is at most one and the breaker's timeout is not negative |
| ConnectionManager.WaitsByLastError | esl-resilience/internal/esl/client.go:107-111 | On a forward clock, round by round: the loop waits for its breaker if and only if the threshold is at most one and the last session ended in an error no longer ago than the breaker's timeout |
| ConnectionManager.LoopFollowsRefusals | esl-resilience/internal/esl/client.go:104-147 | For every multiplier, threshold and clock, the loop's actions from the refusals since the last session alone: it sleeps after each, gives up exactly at the MaxRetries-th, and until then each round causes one action that fits its outcome |
| ConnectionManager.LongerIs | esl-resilience/internal/esl/client.go:128-129 | The next sleep is the product without its fraction, on either side of zero, or the maximum if that is less |
| ConnectionManager.SleepsDouble | esl-resilience/internal/esl/client.go:128-129 | With multiplier two the k-th sleep of a block is min(Initial * 2^(k-1), Max) |
| ConnectionManager.SleepsGrow | esl-resilience/internal/esl/client.go:128-129 | With a multiplier that is not negative: in every run no sleep is shorter than an earlier one of its block, if and only if the second is not shorter than the first or no block sleeps twice |
| ConnectionManager.SecondSleep | esl-resilience/internal/esl/client.go:128-129 | With a multiplier of at least one, the second sleep is not shorter than the first if and only if the first is no longer than the maximum |
| ConnectionManager.SleptInBlock | esl-resilience/internal/esl/client.go:122-130 | For every multiplier, threshold and clock, what a run has slept since its last session, from the refusals alone: one sleep for each of them, the one it gave up at aside |
| ConnectionManager.BlockIsBounded | esl-resilience/internal/esl/client.go:122-130 | For every multiplier: if the first sleep is no longer than the maximum, at every point of every run the time slept since the last session is at most (MaxRetries - 1) times the maximum |
| ConnectionManager.WaitIsBounded | esl-resilience/internal/esl/client.go:122-130 | With a multiplier of at least one that bound holds in every run if and only if the first sleep is no longer than the maximum or the loop never sleeps |
| ConnectionManager.DocumentedSleeps | esl-resilience/internal/esl/client.go:12-32 | With the default configuration the sleeps are the documented 1, 2, 4, 8, 16, 32, 60, 60, ... seconds, a run that gives up has slept 243 seconds since its last session, and the breaker never opens |
| CallMachine.Machine.InitializeTransitions | esl-resilience/internal/state/state_machine_init.go:53-81 | The nested table permits exactly the listed transitions |
| CallMachine.Machine.FillTransitions | esl-resilience/internal/state/state_machine_init.go:75-80 | The filling loop, for any list |
| CallMachine.AllowedIsTable | esl-resilience/internal/state/state_machine_init.go:54-73 | A pair of states is permitted if and only if some rule of the table lists it |
| CallMachine.TargetIsTable | esl-resilience/internal/state/state_machine_init.go:54-73 | The table has at most one rule for a state and an event, and which one |
| CallMachine.CreateNewCall | esl-resilience/internal/state/machine.go:42-71 | A new call in its first state with the create event's caller, callee and direction, and exactly those of the nine relevant headers that are not empty |
| CallMachine.Machine.HandleEvent | esl-resilience/internal/state/machine.go:12-40 | An event without identifier or for an unknown call is refused; a create adds the call; then the call takes the event |
| CallMachine.Machine.ProcessTransition | esl-resilience/internal/state/machine.go:73-131 | The call after the event, the outcome, and a cleanup started if and only if the call moved into an end state |
| CallMachine.Interpret | esl-resilience/internal/state/machine.go:77-104 | What the switch writes into the call before the transition is checked, and the state it asks for |
| CallMachine.Machine.CleanupCall | esl-resilience/internal/state/machine.go:133-145 | The waking cleanup removes its call if that has ended |
| CallMachine.Machine.ActiveCalls | esl-resilience/internal/state/machine.go:175-187 | Counts the calls that have not ended |
| CallMachineLaws.TransitionLeadsForward | esl-resilience/internal/state/machine.go:106-117 | An accepted event leads strictly forward from a state that has not ended and merges the headers; any other leaves state fields and channel data alone |
| CallMachineLaws.EventsFollowTable | esl-resilience/internal/state/machine.go:77-117 | A call moves on an event if and only if the table has a rule for its state and that event, and then to that rule's state, although the code checks the pair of states alone; the two rules for a create are never used |
| CallMachineLaws.EndedIsAbsorbing | esl-resilience/internal/state/state_machine_init.go:71-72 | The two transitions out of an end state are never taken: no event asks for them |
| CallMachineLaws.RefusedEventStillWrites | esl-resilience/internal/state/machine.go:82-97 | Exactly when an event that is not accepted leaves the whole call as it was |
| CallMachineLaws.LateAnswerOverwrites | esl-resilience/internal/state/machine.go:80-82 | A late answer to a call that has hung up is refused and still overwrites the answer time |
| CallMachineLaws.StepKeeps | esl-resilience/internal/state/machine.go:12-145 | One event or cleanup keeps one pending cleanup per ended call, none for others, and the answer time of confirmed and established calls |
| CallMachineLaws.EveryStateIsWellKept | esl-resilience/internal/state/machine.go:126-145 | So does every reachable state, over any interleaving |
| CallMachineLaws.CleanupFindsAnEndedCall | esl-resilience/internal/state/machine.go:139-143 | A waking cleanup always finds its call, ended: its guard never fails and no live call is removed |
| CallMachineLaws.AtMostFourMoves | esl-resilience/internal/state/machine.go:111-113 | Between creation and cleanup a call makes at most four transitions |
| CallMachineLaws.ActiveIsCreatedLessEnded | esl-resilience/internal/state/machine.go:175-187 | The active calls are the calls created less the transitions into an end state, in every run |
| CallMachineLaws.CallsDoNotInterfere | esl-resilience/internal/state/machine.go:12-145 | After any interleaved stream each identifier's entry is that of a single-call automaton run on its own events and cleanups |
| CallEvents.OnProgress | esl-resilience/internal/state/machine.go:78-79 | `CHANNEL_PROGRESS` on a known call: accepted in the initial state only, which becomes early; otherwise refused; answer time, cause and duration stay |
| CallEvents.OnAnswer | esl-resilience/internal/state/machine.go:80-82 | `CHANNEL_ANSWER`: accepted in the initial and the early state, which becomes confirmed; the answer time is written in any case |
| CallEvents.OnPark | esl-resilience/internal/state/machine.go:83-88 | `CHANNEL_PARK`: accepted in the confirmed state only, which becomes established; otherwise refused with an error of its own |
| CallEvents.OnHangup | esl-resilience/internal/state/machine.go:89-94 | `CHANNEL_HANGUP_COMPLETE`: accepted unless the call has ended, which becomes terminated and starts its cleanup; the cause and an answered call's duration are written in any case |
| CallEvents.OnExecuteComplete | esl-resilience/internal/state/machine.go:95-97 | `CHANNEL_EXECUTE_COMPLETE`: accepted unless the call has ended, which becomes failed and starts its cleanup; the cause is written in any case |
| CallEvents.OnOther | esl-resilience/internal/state/machine.go:98-100 | Any other event of a known call, or one without a name, changes nothing |
| CallEvents.OnUnknown | esl-resilience/internal/state/machine.go:12-40 | An event without an identifier, or of an unknown call it does not create, is refused and changes nothing |
| CallEvents.OnCreate | esl-resilience/internal/state/machine.go:42-71 | `CHANNEL_CREATE` of an unknown call: which header goes to which field, and the nine headers kept if they are not empty |
| CallEvents.OnCleanup | esl-resilience/internal/state/machine.go:133-145 | A cleanup removes its call if that is terminated or failed, and nothing else |
| CallEvents.WholeCall | esl-resilience/internal/state/machine.go:73-131 | A call created, ringing, answered, parked and hung up at any times is terminated, answered when it was, as long as it took |
| LogAggregator.LogAggregator.AddEntry | esl-resilience/internal/logging/aggregator.go:46-72 | The entry is appended; over the size, the oldest entry leaves log and indexes before the new one is indexed; then every processor gets the entry, in order |
| LogAggregator.LogAggregator.AddProcessor | esl-resilience/internal/logging/aggregator.go:23-29 | One more processor that later entries are handed to |
| LogAggregator.LogAggregator.AddToIndex | esl-resilience/internal/logging/aggregator.go:74-92 | The entry goes to the end of the list of each of its keys, once per occurrence |
| LogAggregator.LogAggregator.RemoveFromIndex | esl-resilience/internal/logging/aggregator.go:94-118 | One entry with its identifier leaves each list, once per occurrence of the key |
| LogAggregator.RemoveEntryFromSlice | esl-resilience/internal/logging/aggregator.go:120-127 | The list without the first entry of that identifier |
| LogAggregator.LogAggregator.Query | esl-resilience/internal/logging/aggregator.go:129-158 | The candidates of the most selective index that satisfy the remaining conditions, in order |
| LogAggregator.MatchesFilter | esl-resilience/internal/logging/aggregator.go:160-198 | Whether all conditions but the tenant hold, tags checked through a set |
| LogAggregator.ContainsText | esl-resilience/internal/logging/aggregator.go:200-206 | The hand-written search with its shortcuts finds a text if and only if it occurs |
| LogAggregator.ContainsSubstring | esl-resilience/internal/logging/aggregator.go:208-215 | The scan finds a text if and only if it occurs |
| LogAggregator.LogAggregator.Clear | esl-resilience/internal/logging/aggregator.go:235-242 | Empties log and indexes |
| Uuids.UuidTextInjective | esl-resilience/internal/logging/aggregator.go:76-76 | Different tenants never print the same key |
| LogAggregatorLaws.TenantKeysApart | esl-resilience/internal/logging/aggregator.go:74-92 | A tenant's key, which has no prefix, is never a level, source or tag key |
| LogAggregatorLaws.PrefixedKeys | esl-resilience/internal/logging/aggregator.go:79-91 | Keys of different kinds or different names never collide |
| LogAggregatorLaws.RemovedList | esl-resilience/internal/logging/aggregator.go:94-127 | Removing the oldest entry finds it at the head of each of its lists, as often as it is there, whatever the identifiers |
| LogAggregatorLaws.AddingAgrees | esl-resilience/internal/logging/aggregator.go:46-64 | Adding keeps every index list equal to the scan of the log for its key, with tag multiplicity |
| LogAggregatorLaws.AnswerIsScan | esl-resilience/internal/logging/aggregator.go:129-198 | On an agreeing log a query through any index is the scan of the whole log with all conditions, tenant included |
| LogAggregatorLaws.RunAgrees | esl-resilience/internal/logging/aggregator.go:46-242 | After any run of entries and clears the indexes agree and the log is the last bufferSize entries since the last clear |
| LogAggregatorLaws.NoRoomDisagrees | esl-resilience/internal/logging/aggregator.go:54-64 | With no room an index still answers with an entry the log has let go |
| LogAggregatorLaws.QueriesAreScans | esl-resilience/internal/logging/aggregator.go:46-215 | Every query after every run is the brute-force scan of the last bufferSize entries since the last clear if and only if the buffer has room for one |
| LogAggregatorLaws.QueryMembers | esl-resilience/internal/logging/aggregator.go:129-198 | An entry is in the answer if and only if it is among those kept, has the tenant, level and source asked for, a time between start and end, both included, the text somewhere in its message and every tag asked for |
| LogAggregatorLaws.QueryOrder | esl-resilience/internal/logging/aggregator.go:150-156 | The answer's entries stand at increasing places of those kept, each as often as it is there |
| LogAggregatorLaws.IndexMembers | esl-resilience/internal/logging/aggregator.go:74-118 | In every run a list of the index holds exactly the kept entries its key names: by tenant, level, source or tag |
| RateLimiter.InMemoryRateLimiter.Allow | esl-resilience/internal/auth/rate_limiter.go:193-226 | No limit without a positive limit and window; otherwise a counter that starts anew strictly after its window's end is incremented and compared |
| RateLimiter.InMemoryRateLimiter.AllowTenant | esl-resilience/internal/auth/rate_limiter.go:228-231 | The same under the tenant's key |
| RateLimiter.InMemoryRateLimiter.AllowUser | esl-resilience/internal/auth/rate_limiter.go:233-236 | The same under the user's key |
| RateLimiter.KeysApart | esl-resilience/internal/auth/rate_limiter.go:228-236 | Tenants and users never share a key |
| RateLimiter.KeysDoNotInterfere | esl-resilience/internal/auth/rate_limiter.go:200-212 | Traffic on other keys changes neither a key's counter nor its answers |
| RateLimiter.CounterIsWindow | esl-resilience/internal/auth/rate_limiter.go:203-215 | Counter and reset time, told from the times of the key's requests alone |
| RateLimiter.AllowedByPlace | esl-resilience/internal/auth/rate_limiter.go:214-215 | A request is allowed if and only if it is among the first limit requests of its window, among any other traffic |
| RateLimiter.NoLimitNoCount | esl-resilience/internal/auth/rate_limiter.go:194-196 | Without a positive limit and window a request is let through in every run and counts for nothing |
| RateLimiter.FewerThanTwiceTheLimit | esl-resilience/internal/auth/rate_limiter.go:193-226 | On one key, any closed interval of the window's length holds at most 2 * limit - 1 allowed requests |
| RateLimiter.PassedIsAllowed | esl-resilience/internal/auth/rate_limiter.go:193-226 | What the limiter lets through among mixed traffic is what it lets through on the key alone |
| RateLimiter.FewPassInAnyInterval | esl-resilience/internal/auth/rate_limiter.go:193-226 | In every run on a forward clock over any mixture of keys, at most 2 * limit - 1 requests of a key pass in any closed interval of the window's length |
| RateLimiter.BoundIsReached | esl-resilience/internal/auth/rate_limiter.go:203-215 | For every limit, window and key there is a run on a forward clock in which the limiter lets that number of requests pass within a window's length |
| WireGuard.AllocateIP | wireguard-voip/internal/wg/service.go:215-234 | The first free address from host 2 to 253 of an IPv4 or IPv6 subnet, an error for a bad subnet or when none is free |
| WireGuard.Service.Configure | wireguard-voip/internal/wg/service.go:103-117 | The peers of the configuration become the interface's list |
| WireGuard.Service.AddPeer | wireguard-voip/internal/wg/service.go:120-137 | Appends the peer, or fails on an unconfigured interface |
| WireGuard.Service.RemovePeer | wireguard-voip/internal/wg/service.go:140-163 | Removes every peer of that key and keeps the others in order, or fails on an unconfigured interface |
| WireGuard.Manager.Provision | wireguard-voip/internal/peer/manager.go:68-130 | A known user gets the existing peer, touched; a new one gets keys, the first free address and a place in all three maps and the peer list; a failure to generate keys or to allocate changes nothing |
| WireGuard.Manager.Revoke | wireguard-voip/internal/peer/manager.go:133-160 | A known key leaves all three maps and the peer list; an unknown one changes nothing |
| WireGuard.Manager.GetByUserID | wireguard-voip/internal/peer/manager.go:171-182 | The peer the user's key stands for, if there is one |
| IpAddresses.HostsPrintApart | wireguard-voip/internal/wg/service.go:224-227 | Last bytes other than zero print differently in the text of IPv4, of IPv4 in sixteen bytes, and of IPv6 with its longest run of zero groups shortened |
| IpAddresses.TextOfSixteen | wireguard-voip/internal/wg/service.go:224-227 | The text of every 16-byte address that stands for no IPv4 address is that of section 4.2 of RFC 5952: hexadecimal groups with colons, the first of the longest runs of zero groups shortened |
| IpAddresses.TextOfMapped | wireguard-voip/internal/wg/service.go:224-227 | One that stands for an IPv4 address prints as that |
| IpAddresses.HexNumberIsHexadecimal | wireguard-voip/internal/wg/service.go:227-227 | The groups are hexadecimal without leading zeros |
| WireGuardLaws.AddressOfFour | wireguard-voip/internal/wg/service.go:224-227 | The addresses of an IPv4 subnet are three bytes of the base, the host byte and `/32`; of an IPv6 subnet, the base with its last byte replaced and the same `/32` |
| WireGuardLaws.AddressInjective | wireguard-voip/internal/wg/service.go:224-227 | Different host bytes print as different addresses |
| WireGuardLaws.PoolSize | wireguard-voip/internal/wg/service.go:223-223 | There are 252 different addresses to hand out |
| WireGuardLaws.FirstFreeFinds | wireguard-voip/internal/wg/service.go:223-233 | An address handed out is the first one not in use; none is handed out only when all are taken |
| WireGuardLaws.AddressesInSubnet | wireguard-voip/internal/wg/service.go:222-227 | All addresses to hand out lie in the subnet if and only if its prefix leaves the whole last byte to hosts: at most 24 bits for IPv4, 120 for IPv6 |
| WireGuardLaws.ProvisionKeepsPool | wireguard-voip/internal/peer/manager.go:86-92 | Provisioning keeps the pool equal to the live peers' addresses, all different |
| WireGuardLaws.RevokeKeepsPool | wireguard-voip/internal/peer/manager.go:142-145 | So does revoking |
| WireGuardLaws.RegistryStaysInStep | wireguard-voip/internal/peer/manager.go:68-160 | After any run with fresh keys: users and peers in bijection, the pool exactly the live addresses and all different, the interface listing each live key exactly once after the peers it was configured with |
| WireGuardLaws.RefusedOnlyWhenFull | wireguard-voip/internal/peer/manager.go:86-91 | A new user is refused for want of an address if and only if 252 peers are live |
| WireGuardLaws.LiveAddressesInSubnet | wireguard-voip/internal/peer/manager.go:86-99 | All live addresses of every run with fresh keys lie in the subnet if and only if its prefix leaves the whole last byte to hosts: for a longer one a run is given that hands out all 252 |
| WireGuardLaws.RevokeUndoesProvision | wireguard-voip/internal/peer/manager.go:68-160 | Revoking a peer just provisioned gives all three maps and the peer list back as they were |
| WireGuardLaws.ProvisionTwice | wireguard-voip/internal/peer/manager.go:72-79 | A user who asks again gets the same peer with a new time of update, whatever keys could be generated, and nothing else changes |
| WireGuardLaws.NewUserGetsPeer | wireguard-voip/internal/peer/manager.go:81-130 | A user without a peer gets the first address not in use and a peer with every field in its place, entered in all three maps and at the end of the peer list with a keepalive of 25; with all 252 in use nothing changes |
| WireGuardLaws.FailureChangesNothing | wireguard-voip/internal/peer/manager.go:81-91 | Without keys or a valid subnet nothing changes, and the error says which |
| WireGuardLaws.RevokedIsGone | wireguard-voip/internal/peer/manager.go:133-160 | What is left of each map and of the peer list after a key is revoked |
| NgClient.SplitN | rtpengine-media/internal/ng/client.go:328-339 | The loop gives the parts before the first n - 1 separators and the rest, for every n |
| NgClient.SplitPartsRestore | rtpengine-media/internal/ng/client.go:328-339 | Joining the parts with the separator restores the data, for every n |
| NgClient.SplitPartsLack | rtpengine-media/internal/ng/client.go:328-339 | There are at most n parts; only the last can hold the separator, and only when there are n |
| NgClient.FramingRoundTrip | rtpengine-media/internal/ng/client.go:287-325 | A formatted message splits into its cookie and its body if and only if the cookie has no space |
| NgClient.CookiesAreFramed | rtpengine-media/internal/ng/client.go:315-325 | So every generated cookie's message does, and different random bytes give different cookies of sixteen characters |
| NgClient.Client.Register | rtpengine-media/internal/ng/client.go:108-117 | A new channel under the cookie, or a refusal by a closed client |
| NgClient.Client.Unregister | rtpengine-media/internal/ng/client.go:119-123 | The cookie leaves the store |
| NgClient.Client.MarkClosed | rtpengine-media/internal/ng/client.go:83-90 | The client refuses calls from then on; store and channels stay |
| NgClient.Client.HandleResponse | rtpengine-media/internal/ng/client.go:287-312 | A datagram that does not split or decode is an error; otherwise its response goes to its cookie's channel unless that is full or the cookie is unknown |
| NgClient.ReplyIsRouted | rtpengine-media/internal/ng/client.go:287-312 | A reply of a cookie, a space and a body goes to the channel waiting under that cookie, unless that is full, and nothing else changes; without such a channel nothing does |
| NgClient.ReplyIsRead | rtpengine-media/internal/ng/client.go:287-298 | A datagram is read if and only if it has a space and what is behind the first one decodes; the cookie is what stands before |
| NgClient.UnreadIsDropped | rtpengine-media/internal/ng/client.go:290-298 | Any other datagram changes nothing |
| NgProtocol.StoreAlwaysMatches | rtpengine-media/internal/ng/client.go:107-123 | With fresh cookies the store holds exactly the registered calls, each under its own cookie, in every run |
| NgProtocol.FirstStaysTracked | rtpengine-media/internal/ng/client.go:125-312 | The first response delivered for a call is in the reader's hand, in the channel or returned, in every run |
| NgProtocol.FirstResponseIsReturned | rtpengine-media/internal/ng/client.go:107-139 | Over any interleaving of calls, duplicate, late or reordered datagrams and timeouts, a call that returns a response returns the first one delivered for its own cookie while it was registered |
| NgProtocol.AtMostOneIsConsumed | rtpengine-media/internal/ng/client.go:130-138 | A call takes exactly one response from its channel if it returns one, otherwise none |
| NgProtocol.HandlingIsTwoSteps | rtpengine-media/internal/ng/client.go:300-309 | The method's one call is the reader's two steps, uninterrupted |
| NgProtocol.ReplyIsDelivered | rtpengine-media/internal/ng/client.go:287-309 | In every run with fresh cookies a genuine reply that comes while the reader is free is delivered to the call registered under its cookie and to no other |
| NgProtocol.CallReturns | rtpengine-media/internal/ng/client.go:119-139 | A waiting call can return if and only if a response has been delivered that is not still in the reader's hand, and then with the first; it can always give up; its cookie leaves the store |
| Mos.LossRateIsTrue | rtpengine-media/internal/metrics/collector.go:201-204 | The loss rate is the true one if and only if the 64-bit sum does not wrap; it is zero when the sum wraps to zero exactly and too high when it wraps further |
| Mos.TrueLossRateMonotone | rtpengine-media/internal/metrics/collector.go:202-204 | The true rate grows with the packets lost and falls with those received |
| Mos.LossImpairmentMonotone | rtpengine-media/internal/metrics/collector.go:206-213 | The impairment by loss grows strictly with the rate and stays below 95 |
| Mos.DelayImpairmentMonotone | rtpengine-media/internal/metrics/collector.go:215-224 | The three-piece impairment by delay is never negative and never falls |
| Mos.ScoreMonotone | rtpengine-media/internal/metrics/collector.go:237-252 | The clamped cubic never falls as the rating rises, is one exactly where R(160 - R) is at most 1000, and rises strictly above that |
| Mos.ScoreIsInRange | rtpengine-media/internal/metrics/collector.go:200-255 | The score lies in [1, 4.5] for all reals and all counts, wrapping or not |
| Mos.WorseIsNeverBetter | rtpengine-media/internal/metrics/collector.go:200-255 | The score never rises with rtt, jitter or packets lost nor falls with packets received, for all reals and all counts that add up without wrapping |
| Mos.SlowerIsNeverBetter | rtpengine-media/internal/metrics/collector.go:215-227 | In rtt and jitter that holds for all counts |
| Mos.WrapAgainstTruth | rtpengine-media/internal/metrics/collector.go:202-204 | Against the score of the true loss rate: equal without a wrap, never higher once wrapped past zero, that of a loss-free call when wrapped to zero |
| Mos.LossNeverHelpsIff | rtpengine-media/internal/metrics/collector.go:202-204 | For every delay and every count received, further lost packets up to a given number never raise the score if and only if that number can be added without wrapping, or the delay alone puts the score at its floor, or a single loss wraps the sum to zero and the number is at most two or its own rate puts the score at the floor |
| Mos.FloorByDelay | rtpengine-media/internal/metrics/collector.go:215-252 | The delay alone puts the score at its floor exactly from a delay between 1100 and 1101 on |
| Mos.BestScore | rtpengine-media/internal/metrics/collector.go:226-252 | The score is at most that of rating 93.2, below 4.41, and equal to it if and only if the delay is below 100 and no loss is seen; 4.5 is never reached |
| Mos.FloorNeedsDelay | rtpengine-media/internal/metrics/collector.go:226-249 | Without a wrap the score is one only with a delay above 410: loss alone never takes it there |
| Mos.EstimateInFull | rtpengine-media/internal/metrics/collector.go:200-255 | Without a wrap the score is one formula of what was measured: one unless R(160 - R) is above 1000, and then 1 + 0.035 R + 0.000007 R (R - 60)(100 - R), with R = 93.2 less the two impairments in numbers |
| Mos.DelayPieces | rtpengine-media/internal/metrics/collector.go:215-224 | The impairment by delay in numbers, piece by piece, met at 400 from both sides |

## Left out

- Sockets, HTTP handlers, SQL repositories, Redis, Prometheus, push services, media stacks, report generation and the
  Python service: foreign calls without an algorithm of their own.
- SIP message building and sending, authentication and `SendCommand` of the event socket: only success or failure of
  connecting and the stream of events are modelled.
- `Buffer.Stop` and the channels that the ng client's `Close` closes: closing channels in a race is not part of the
  step model; of `Close` only the flag is.
- Statistics, getters that copy, and logging.
- Locks: each locked region is one step.
- CircuitBreakers.EnhancedMonitor.GetCircuitBreakerState: one call, uninterrupted; its three locked regions with other
  goroutines in between are the moves of `MonitorRace`.
- CircuitBreakers.EnhancedMonitor.IsCircuitBreakerOpen: uninterrupted as the query it makes.
- Bytes: invalid UTF-8, and lengths counted in bytes instead of characters.
- The `Raw` text of a media section, which the parser never sets, takes part only in being ignored.
- Log entry fields, what the processors do, and the time an entry is stamped with.
- WireGuard.AllocateIP: parsing and masking the subnet is a parameter.
- The peer identifier made from the clock, the endpoint, and the traffic statistics of a peer.
- WireGuardLaws.RegistryStaysInStep: asks that no generated key is that of a live peer or of a peer configured
  beforehand, because the code does not check for it.
- NgProtocol.FirstResponseIsReturned: asks that no cookie is drawn again while it is still registered, because the code
  does not check for it.
- Aliasing: calls and peers are shared objects in the code, so a caller holding one sees later changes; here they are
  values in maps, and the log's entries are values.
- ConnectionManager.LoopFollowsRefusals: durations are unbounded and the multiplication is exact, so the overflow of
  a 64-bit duration and the rounding of `float64` are not modelled.
- ConnectionManager.WaitIsBounded: asks for a multiplier of at least one, below which sleeps also shrink by
  themselves; the bound itself holds for every multiplier (`ConnectionManager.BlockIsBounded`).
- ConnectionManager.SleepsGrow: asks for a multiplier that is not negative.
- Mos.WorseIsNeverBetter: reals in place of `float64`, without rounding, infinities or not-a-number.
- Redis rate limiter, `Reset`, and a limit or window that changes between requests of one key.
- Tenant and push device indexes, session counters, alert managers: their code does not keep the invariants one would
  ask of them without assumptions it does not make.
- Role and scope checks, fraud scores, country codes, answering-machine routing, zero-rating: table lookups.
- Second copies of the same code in other services.
