# fastpx, verified

A Dafny model of fastpx, an HTTP CONNECT proxy that authenticates to an upstream proxy on behalf of its
clients. `dafny verify dfyconfig.toml` checks the whole project.

## What is modelled

- **The incremental HTTP/1 reader** (`Http1.dfy`, `Chunked.dfy`, `Lines.dfy`, `Operations.dfy`). A `TcpStream`
  holds the bytes its peer still delivers; every read returns a piece of any size, or fails, and the socket
  remembers that an operation failed, so that an I/O error is never reported without one. A
  `BufferedStream` keeps the class invariant that buffered bytes followed by unread bytes are exactly what has not
  been taken yet of the stream it started with (`origin` from `position` on), and remembers the largest size its
  buffer ever had (`peak`). Its operations are proved against functions of the whole byte stream.
- **The authentication handshake** (`Protocol.dfy`, `Handshake.dfy`, `Challenges.dfy`, `Responses.dfy`,
  `Requests.dfy`). The handshake runs against an arbitrary network and an arbitrary security context and records
  a ghost trace: connections opened, requests written, heads read, steps of the security context. The trace is tied
  to what really happened (the sockets the network has opened, the bytes written to them, the contexts the factory
  has made and what they were asked, the positions of the heads in the byte streams) and obeys `Protocol.Lawful`, a
  rule for each event given everything before it. The theorems about whole runs follow from those rules.
  `Dialogue.dfy` turns to the other side: what the upstream proxy and the client read.
- **The relay and its idle watchdog** (`Relay.dfy`). A state machine with one move per read, write, clock tick
  or watchdog decision; polls of the pumps and of the watchdog do not overlap because both live in one task.
- **Admission of clients** (`Admission.dfy`): any number of accept loops over one semaphore.
- **Endpoints, networks and routing** (`Endpoint.dfy`, `Cidr.dfy`, `Routing.dfy`), with the exact languages accepted.
- **A client connection from end to end** (`Tunnel.dfy`), built from all of these. What it promises is about the
  connections the given network has opened, the bytes they deliver and the contexts the given factory has made.

Modelling choices. Text is kept as its UTF-8 bytes, with UTF-8 validity, white space and numerals written out in
`Wire.dfy`; `Unicode.dfy` and `Numerals.dfy` say what these mean in terms of characters and positional values. The `httparse` head parsers and the base64 codec are arbitrary functions. `usize` is 64 bits wide.
The handshake is proved for any way of reading a response head (`Protocol.Setting`) and any request text;
`Tunnel.ProxyConfig.Upstream` supplies the proxy's own: `ConnectionClose`, `ChooseScheme`, `FindChallenge` with
base64 decoding, and `ConnectRequest`. The answer of the resolver is an arbitrary parameter; connection attempts,
timeouts and the security context are nondeterministic.

Where the code is less regular than one would expect from its documentation:

- `read_line` is not a function of the byte stream: a line whose CRLF ends after the limit but within one more
  read may be accepted or refused depending on how it arrives. `Lines.DeterministicUnlessBorderline` gives the exact
  condition.
- The size cap on response heads (`docs/ARCHITECTURE.md`, "Resource bounds") is not checked for a head that is
  already buffered. A line read leaves at most 1023 bytes behind, so every head accepted in a run is at most as long as
  the larger of the cap and 1023, and the cap is kept in every run whenever it is at least 1023
  (`Operations.CapKeptExactly`, with the exact condition for smaller ones). The command line refuses caps below 1024
  (`src/main.rs`, line 65); only a `ProxyConfig` built in code can have one that is not kept, as in
  `Operations.CapOf1022`.
- Printing a parsed endpoint and parsing it again fails for hosts that start with `[` and hold no `:`
  (`Endpoints.ParseDisplayParse`, `Endpoints.DoubleBracketFails`).

## Model

| member | source | states |
|---|---|---|
| Wire.FindInPrefix | src/http1.rs:293-298 | a delimiter found in what has arrived is the first one of the whole stream, and one that has arrived entirely is found, wherever reads cut the stream |
| Wire.SplitMeaning | src/server.rs:328 | cutting a value at its separators loses nothing: joined again the items are the value, and no item holds a separator |
| Wire.CaseMeaning | src/server.rs:333 | two bytes are equal without regard to case exactly if they are equal or an upper and a lower case of one letter |
| Numerals.ParseUintMeaning | src/http1.rs:54-57 | a number is read exactly if the text is digits, perhaps behind a `+`, whose positional value it is and which is not too large |
| Numerals.PrintSpells | src/config.rs:139-141 | a printed number spells that number, in lower case and without leading zeros |
| Unicode.Utf8Meaning | src/http1.rs:53 | a value is readable exactly if it is the encoding of a sequence of Unicode scalar values (section 3 of RFC 3629) |
| Unicode.TrimMeaning | src/http1.rs:42 | trimming removes exactly the white characters at both ends |
| Unicode.FieldsMeaning | src/server.rs:329-336 | splitting at white space gives exactly the words between white characters, in order |
| Unicode.PiecesAreText | src/server.rs:328 | the comma-separated items of readable text are readable text |
| Framing.HeadInBuffer | src/http1.rs:145-163 | searching the bytes read so far decides whether the stream has a head, one that is too large, or none |
| Http1.BufferedStream.ReadResponseHead | src/http1.rs:141-164 | absent I/O errors the result is a function of the logical stream, the cap and the buffer length, for all read sizes; exactly the head is taken if one is found, and nothing otherwise |
| Http1.BufferedStream.DiscardExact | src/http1.rs:182-197 | success takes exactly n bytes, end of stream is reported only if there are fewer, and no newly read byte stays in the buffer |
| Http1.BufferedStream.ReadLine | src/http1.rs:199-217 | the line returned is the first line of the logical stream; a line that ends within the limit is always found; the run is the one `LineRun` describes for the sizes of its reads |
| Http1.BufferedStream.DrainTrailers | src/http1.rs:232-236 | trailer lines are skipped exactly up to and including the empty line |
| Http1.BufferedStream.DrainChunked | src/http1.rs:219-245 | success leaves exactly the suffix the whole-stream decoder leaves; a body whose lines fit in 8192 bytes is refused only by an I/O error |
| Http1.BufferedStream.DrainResponseBody | src/http1.rs:166-176 | the body is skipped by the framing its head announces: chunked, Content-Length, or none |
| Http1.ReadHeadBytes | src/http1.rs:269-291 | the outcome and the end of the head depend on the stream alone, for all read sizes |
| Http1.ReadRequestHead | src/http1.rs:99-122 | the parsed head is the first head of the stream; head, early bytes and unread bytes make up the stream |
| Messages.AgreedLengthMeaning | src/http1.rs:50-64 | a length is reported exactly when there is a value and every value is that number |
| Messages.ReadContentLength | src/http1.rs:50-64 | the loop reports the agreed length or the first fault |
| Messages.AgreedLengthFault | src/http1.rs:52-62 | a fault is reported for the first value that is no number or differs from those before it |
| Messages.ConnectionCloseMeaning | src/http1.rs:36-48 | a response closes exactly if a readable Connection header, in any case, lists `close`, in any case, or the version is HTTP/1.0 and none lists `keep-alive` |
| Messages.ContentLengthMeaning | src/http1.rs:50-64 | a length is announced exactly if there is a Content-Length header, in any case, and every one has that number for its value |
| Messages.LengthValueMeaning | src/http1.rs:53-57 | a Content-Length value is a number exactly if it is readable and trims to a decimal numeral below 2^64 |
| Messages.PrintedLength | src/http1.rs:53-57 | a printed number below 2^64, with blanks behind it or not, is read back |
| Framing.FramingMeaning | src/http1.rs:166-176 | from the text of the headers: chunked exactly if a Transfer-Encoding lists `chunked`, otherwise sized by the agreed Content-Length, and without a body exactly if there is neither |
| Lines.ShortLine | src/http1.rs:199-217 | a line that ends within the limit, or is buffered, is found under every sequence of read sizes |
| Lines.LongLine | src/http1.rs:199-217 | a line that ends beyond one more read past the limit is refused under every sequence of read sizes |
| Lines.NoLine | src/http1.rs:199-217 | without a CRLF the outcome depends on the length of the stream alone |
| Lines.EitherOutcome | src/http1.rs:201-215 | in between there is a sequence of read sizes that refuses the line and one that accepts it |
| Lines.ZerosAreBorderline | src/http1.rs:221 | a concrete line for the limit of 8192: 8191 zeros and their CRLF are refused in one sequence of reads and accepted in another |
| Lines.DeterministicUnlessBorderline | src/http1.rs:199-217 | the outcome is independent of the read sizes if and only if the line is not in between |
| Lines.LineLeaves | src/http1.rs:201-215 | after a line is found at most 1023 bytes stay in the buffer, unless more were there before |
| Chunked.DecodeLeavesSuffix | src/http1.rs:219-245 | decoding only takes bytes from the front |
| Chunked.DecodeWithoutLimit | src/http1.rs:219-245 | the line limit never changes a decoding that succeeds |
| Chunked.SizeLineRead | src/http1.rs:221-229 | a line that spells a size below 2^64 in hexadecimal digits of either case, with blanks and UTF-8 extensions, is read as that size |
| Chunked.EncodeThenDecode | src/http1.rs:219-245 | decoding the encoding of any chunks, sizes in any spelling, extensions and trailers leaves exactly what follows the body (section 7.1 of RFC 9112) |
| Chunked.PrintedSizeAnnounces | src/http1.rs:228-229 | every size below 2^64 is announced by its hexadecimal form in any mix of upper and lower case |
| Operations.RunConserves | src/http1.rs:141-245 | over every sequence of successful operations, the bytes consumed followed by what is left are the original stream; discarding n consumes exactly n |
| Operations.AcceptedHead | src/http1.rs:141-164 | every head accepted in a run is at most as long as the larger of the cap and 1023 bytes |
| Operations.CapKeptExactly | src/http1.rs:145-163 | no run accepts a head longer than the cap if and only if the parser accepts no head longer than the cap and at most 1023 bytes; so every cap of at least 1023 is kept |
| Operations.CapOf1022 | src/http1.rs:145-163 | with a cap of 1022 a run accepts a head of 1023 bytes |
| Operations.Run | src/http1.rs:141-245 | over every sequence of operations on a new connection the buffer never exceeds the larger of the head cap and 8191 + 1024 bytes, and between successful ones the larger of the cap and 1023; each success does what `Takes` says, and a failure is that of the connection or of what the stream holds |
| Operations.DrainEncoded | src/http1.rs:219-245 | however a chunked encoding arrives, draining it leaves exactly what follows unless the connection fails |
| Responses.LimitsAgree | src/http1.rs:141-176 | the limits of the reader decide only whether a head is found, never which one |
| Responses.ReadHere | src/http1.rs:141-164 | a reader at the start of the k-th head finds the k-th head, or there is none within its limits |
| Responses.SkipHere | src/http1.rs:166-176 | skipping the body of the k-th response leads to the start of the next head, or there is none within the limits |
| Responses.KthHeadIsKthResponse | src/http1.rs:141-176 | on a stream of correctly framed responses the k-th head is that of the k-th response sent |
| Challenges.FirstNamingMeaning | src/server.rs:328-338 | among the items of a value the challenge found is that of the first naming the scheme, and none is found only if no item names it |
| Challenges.FindChallengeMeaning | src/server.rs:323-341 | from the text of the headers: the challenge found is the second field of the first comma-separated item, over all readable Proxy-Authenticate headers in order, whose first field is `Negotiate` or `NTLM` in any case; none is found exactly if there is no such item |
| Challenges.DecodeMeaning | src/server.rs:343-352 | an item with one field carries no token, and one with more carries its decoded second field, if that can be decoded |
| Challenges.SearchChallenge | src/server.rs:323-341 | the search over values and their items finds that challenge |
| Challenges.ChoiceMeaning | src/server.rs:304-321 | the scheme chosen is permitted by the mode and offered; automatically NTLM exactly if nothing offers Negotiate; a choice is made exactly if something permitted is offered |
| Requests.SendConnectRequest | src/server.rs:358-376 | the text built by appending is the request of its lines, and nothing else is written |
| Requests.RequestIsOneHead | src/server.rs:358-376 | whatever follows it, the request ends at its first CRLFCRLF, and its second word parses to the same destination exactly when that destination prints unambiguously |
| Requests.RequestText | src/server.rs:363-374 | the literal text of a request, with and without Proxy-Authorization |
| Dialogue.UpstreamReadsRequests | src/server.rs:218-286 | in every run, cutting what a socket was sent at the ends of heads gives exactly the requests of the run on it, in order, with nothing left over, and each asks for the destination if that prints unambiguously |
| Dialogue.CredentialsReadBack | src/server.rs:264-267 | read as a challenge is, the credentials sent name the scheme of the run and carry the token |
| Dialogue.CredentialsOfRun | src/server.rs:264-267 | in every run the credentials of a request carry the token of the step just made under the name of the scheme of the run |
| Dialogue.GrantIsOneHead | src/server.rs:135-137 | whatever the tunnel carries, the 200 ends at the first CRLFCRLF the client sees |
| Dialogue.RefusalIsFramed | src/server.rs:378-390 | the first head of every refusal ends where its body begins and announces the length of that body |
| Protocol.Accounting | src/server.rs:218-286 | in every run at most one request without a token, the first; at most four with one; at most two connections; no more steps than responses |
| Protocol.TokensOnOneSocket | src/server.rs:256-283 | in every run all requests that carry a token go to one socket, because requests go to the newest one and none is opened after a step |
| Protocol.NoDialAfterStep | src/server.rs:245-264 | once the security context has been stepped no connection is opened |
| Protocol.WhyReconnected | src/server.rs:245-254 | a run opens a second connection only if its first 407 closes the first one and its challenge has no token; tokens then go to the second only |
| Protocol.NothingSentAfterClose | src/server.rs:248-262 | once a response on a socket has announced that it closes, nothing is written to that socket and no head is read from it for the rest of the run |
| Protocol.NothingSentAfterCloseHeader | src/server.rs:248-262 | the same for the proxy, with the closing announced in the text of the Connection headers |
| Protocol.WhyReconnectedHeader | src/server.rs:245-254 | a second connection is opened only after a 407 whose Connection headers announce the closing and whose first item of a permitted scheme has no token |
| Protocol.KthStepReadsKthResponse | src/server.rs:239-282 | the argument of the k-th step is the decoded token of the k-th response for the scheme of the run, which is a 407 |
| Protocol.StepReadsFirstItem | src/server.rs:264-282 | that token is what the first readable Proxy-Authenticate item that offers the scheme carries, and none if it has one field |
| Protocol.TokenInMeaning | src/server.rs:279-281 | the token of a response is what its first item of the scheme carries; it is not offered exactly if no item offers the scheme, and invalid exactly if that item has a second field that cannot be decoded |
| Protocol.SchemeOfRun | src/server.rs:239-241 | the scheme is fixed by the first response, permitted by the mode and offered; automatically NTLM exactly if nothing names Negotiate |
| Protocol.ResponsesInOrder | src/server.rs:222-283 | in every run, if a socket delivers correctly framed responses, the k-th head read from it is that of the k-th response sent on it |
| Protocol.HeadsWithinCap | src/server.rs:225-270 | every head a run reads is found where a reader of the whole stream finds it, within the larger of the cap and 1023 bytes |
| Handshake.FramedNeverStuck | src/server.rs:225-270 | while correctly framed responses are to come, the reader does not fail with malformed or oversized HTTP |
| Handshake.Exchange | src/server.rs:224-227 | one request is written and the head read is the first of the logical stream; an I/O error is reported exactly if an operation failed |
| Handshake.PassBody | src/server.rs:257-262 | a connection is used again only if the response does not close it and its body has been skipped to the start of the next head |
| Handshake.Judge | src/server.rs:272-281 | success exactly on 2xx, another round exactly on a 407 with a readable challenge of the scheme, otherwise the error the response deserves |
| Handshake.AuthRound | src/server.rs:256-283 | a round ends established, ready for the next round, or over with a reason in the trace |
| Handshake.Authenticate | src/server.rs:256-286 | after at most four rounds the loop is over: granted by a 2xx, or failed with a reason in the trace |
| Handshake.EstablishUpstreamTunnel | src/server.rs:218-286 | every run is lawful and aligned with the bytes of its sockets; the sockets the network has opened, the bytes written to them, the context asked of the factory and the steps of it are those of the trace; success means the last head was a 2xx and the newest socket stands right behind it; every error has its reason in the trace, in a refused connection attempt or in a socket that failed |
| Relay.DeliversPrefix | src/relay.rs:44-65 | in every interleaving what is delivered is a prefix of what the source sends with at most one buffer in flight; a good end delivers everything and reports the lengths |
| Relay.TimesOutOnlyWhenIdle | src/relay.rs:67-83 | a timeout is reported only if every move of the run that delivered the last byte of a piece, in either direction, happened that long ago |
| Relay.DeadlinesAdvance | src/relay.rs:68-75 | between any two moments of a run deadlines never decrease, and strictly increase over a timer wake that does not end the relay |
| Relay.IdleRelayEnds | src/relay.rs:71-75 | polled after a whole timeout without a delivery, the watchdog's timer has fired and ends the relay |
| Relay.ActivityIsDelivery | src/relay.rs:54-64 | the recorded activity is the start of the relay or the moment of a delivery |
| Relay.CanEndWell | src/relay.rs:13-65 | from every reachable state that is not over and has no failed pump the relay can deliver everything and end well |
| Relay.SendersOutliveRelay | src/relay.rs:20-35 | the exit for a channel without senders is never taken before the relay has its result |
| Relay.SendersGoneMeaning | src/relay.rs:76-80 | that exit stands open exactly if both pumps have returned and no newer activity is to be seen |
| Relay.WakesOnActivity | src/relay.rs:70-81 | a polled watchdog wakes for activity exactly if a piece has been delivered since it was armed |
| Relay.AnySizes | src/relay.rs:54-62 | reads take any number of the bytes that are there up to 64 KiB, writes any number of those held, the end is read only when nothing is left, and every operation can fail |
| Relay.AnySchedule | src/relay.rs:25-41 | time can pass at any moment, either side can be polled between polls, without a timeout only the pumps, and the timer fires exactly from the deadline on |
| Relay.FailsOnlyByFault | src/relay.rs:24-29 | a relay that is over reports an I/O failure exactly if a pump failed |
| Admission.PermitsConserved | src/server.rs:51-89 | in every run free permits, permits held by accept loops and live handlers add up to the maximum |
| Admission.HandlersAreAccepted | src/server.rs:77-86 | the live handlers are the clients accepted less the handlers that have ended |
| Admission.LoopFollowsMoves | src/server.rs:56-88 | what an accept loop is doing follows from its last move: waiting after a start or an accept, holding a permit after acquiring it, stopped after a shutdown or an accept error |
| Admission.RoomMeansAdmission | src/server.rs:57-86 | a waiting loop can acquire a permit exactly if the permits held and the handlers alive are fewer than the maximum; a loop that holds one can accept or fail, and any loop not stopped can be shut down |
| Admission.CanFill | src/server.rs:56-86 | every number of live handlers up to the maximum is reached by some run |
| Admission.RunGoesOn | src/server.rs:56-88 | a run goes on by exactly the moves that can happen in the state it has led to |
| Admission.FullMeansNoAdmission | src/server.rs:57-86 | with the maximum of handlers alive no loop can acquire a permit or accept a client |
| Cidr.ContainsMeaning | src/config.rs:43-52 | a network contains exactly an interval of addresses, exactly those that share the first bits of the written address |
| Cidr.MaskClears | src/config.rs:79-95 | masking with shifted ones clears exactly the bits after the prefix, at every width |
| Cidr.MaskIdempotent | src/config.rs:79-95 | the network of a network address is that network |
| Cidr.NestedOrDisjoint | src/config.rs:43-52 | two networks of one family are nested or disjoint |
| Cidr.ParsedCidrMeaning | src/config.rs:60-77 | an accepted text denotes the interval of the address written in it |
| Cidr.CidrOfText | src/config.rs:60-77 | a text with a slash denotes the addresses that agree with the address before it on as many bits as the number behind it says, or is refused for the part that is wrong |
| Cidr.CidrWithoutSlash | src/config.rs:64-66 | a text is refused for a missing prefix exactly if it has no slash |
| Cidr.PrintedCidr | src/config.rs:60-77 | the same for a printed prefix: accepted up to 32 or 128, too long up to 255, no number beyond |
| Routing.DirectIffListed | src/routing.rs:5-27 | an address is direct if and only if one of nine fixed networks or an additional one contains it |
| Routing.KeepDirect | src/server.rs:196-202 | the direct addresses are kept once each, in the order of their first appearance; none only if there is none |
| Endpoints.Parse | src/config.rs:146-189 | an accepted host is not empty and free of white space, `/` and `@`, and the port is from 1 to 65535 |
| Endpoints.ParseMeaning | src/config.rs:146-189 | the accepted language: `[host]:port` or `host:port` with a clean host and a decimal port from 1 to 65535, and nothing else |
| Endpoints.Refusals | src/config.rs:150-170 | each refusal for the form of a text, exactly when it is given |
| Endpoints.RefusedParts | src/config.rs:172-185 | each refusal for the host or the port, exactly when it is given |
| Endpoints.DisplayThenParse | src/config.rs:136-189 | for every acceptable endpoint, printing and parsing give it back if and only if its host is not confused by brackets |
| Endpoints.ParseDisplayParse | src/config.rs:136-189 | for parsed endpoints the round trip holds unless the host starts with `[` and has no `:`, and then the printed form is rejected |
| Endpoints.ParseThenDisplay | src/config.rs:136-189 | printing a parsed endpoint gives the text back exactly if its port has no sign or leading zeros and it has brackets exactly if the host holds a `:` |
| Endpoints.DoubleBracketFails | src/config.rs:136-189 | every `[[name]:port` without a colon in the name is accepted and does not survive printing |
| Endpoints.RoundTripFails | src/config.rs:136-189 | a concrete text, `[[a]:80`, that is accepted and does not survive printing |
| Endpoints.DisplayIsOneWord | src/config.rs:136-144 | a printed endpoint holds no white space, `/` or `@` |
| Tunnel.ConnectDirect | src/server.rs:205-216 | the addresses are tried in order until one accepts; an I/O error means that all were tried or that the connection opened could not be configured |
| Tunnel.EstablishTunnel | src/server.rs:159-203 | the route is direct exactly if routing is automatic and some resolved address is direct; then exactly the direct addresses are tried, in order; otherwise only the upstream proxy is dialled; the connection returned is the newest of the network and stands where the tunnel begins; a failure has its reason in the attempts, the sockets or the trace |
| Tunnel.UpstreamRun | src/server.rs:218-286 | a handshake of the proxy runs with its settings: its mode decides which schemes are permitted, its limit how long a head can be, and its requests are those for the destination |
| Tunnel.SchemeMissingOnly | src/server.rs:279-281 | a missing scheme is reported only for a 407 without an item that offers it, or if the first 407 offers nothing permitted |
| Tunnel.TokenInvalidOnly | src/server.rs:343-352 | an invalid token is reported only for a 407 whose first item of the scheme has a second field that cannot be decoded |
| Tunnel.ClosedOnly | src/server.rs:248-260 | a closed connection is reported only for a 407 whose Connection headers announce it |
| Tunnel.OnlyDirectAddresses | src/server.rs:159-216 | nothing but the upstream proxy and direct addresses is ever dialled, and in proxy-only mode only the upstream proxy |
| Tunnel.RelayBidirectional | src/relay.rs:13-42 | what passes the two sockets is what some reachable state of the relay has delivered, and a pump has failed exactly if a socket has |
| Tunnel.Carry | src/server.rs:139-148 | early bytes, then what a run of the relay delivers, reach the other side in order; the tunnel ends as that run does; a good end means all bytes; a lost connection means exactly that a socket failed |
| Tunnel.ReadDestination | src/server.rs:103-123 | a request is refused only for the reason given, and otherwise the destination is the one it asks for |
| Tunnel.HandleClient | src/server.rs:97-157 | a client that gets the 200 gets a transparent tunnel to the destination it asked for, over the newest connection of the network: that connection receives a prefix of what follows the request head, the client a prefix of what the connection delivers after the 2xx head (or from the start when direct), all of both when the relay ends well, with early bytes plus the counts equal to the totals; every other client gets the one refusal its request or the failed attempt deserves, or less if it went away; in literal text, the 200 is sent only for a tunnel, and refusals begin with the status lines 400 Bad Request, 405 CONNECT Required, 400 Invalid CONNECT Target and 502 Bad Gateway |

## Left out

- Windows SSPI calls and handle lifetimes (`src/auth.rs`): the security context is an arbitrary oracle that may fail.
- `httparse` and base64: arbitrary functions; malformed heads and missing fields are one error, `Parse`.
- The textual IP address parser: an arbitrary function from text to address.
- The upstream host given to `AuthFactory::create` has no effect in the model, and `set_nodelay` none but that it may fail.
- Liveness of the network and fairness of the scheduler: nothing says that a read or a poll happens.
- Tokio's queue of semaphore waiters: a free permit can be taken by any waiting loop.
- `src/main.rs`, logging, the benchmark and packaging: plumbing.
- `pump`, `idle_watchdog` and `serve_until` are moves of state machines on values rather than loops, because their
  interleaving is what the theorems are about; that a pump reuses one buffer is not captured.
- Relay.DeliversPrefix: counts are unbounded numbers, not `u64`, because no connection carries 2^64 bytes.
- Tunnel.RelayBidirectional: the relay is cut off after an arbitrary number of moves, because a relay need not end; what holds at the cut holds at every moment.
- Handshake.EstablishUpstreamTunnel: a failing security context is one error, because its causes are not visible.
