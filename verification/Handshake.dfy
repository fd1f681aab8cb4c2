/** The CONNECT handshake with the upstream proxy (`establish_upstream_tunnel` of `src/server.rs`). */
module Handshake {
  import opened Wire
  import opened Lines
  import opened Messages
  import opened Challenges
  import opened Framing
  import opened Responses
  import opened Sockets
  import opened Http1
  import opened Protocol

  datatype ProxyError =
    | IoError
    | Http(error: HttpError)
    | Authentication
    | ConnectTimeout
    | DirectConnectTimeout
    | InvalidDestination
    | UpstreamStatus(status: nat)
    | AuthenticationRequired
    | AuthenticationSchemeMissing
    | InvalidAuthenticationToken
    | ConnectionClosedDuringAuth
    | TooManyAuthenticationRounds

  /** What a handshake is run with: the limit for heads, the head parser, the authentication mode, how
      responses are read, and the text of a CONNECT request with or without Proxy-Authorization. */
  datatype Config = Config(
    maxHeaderBytes: nat,
    parse: ResponseParser,
    mode: AuthMode,
    setting: Setting,
    request: Option<Bytes> -> Bytes)
  {
    /** The longest head a run can accept: within the limit, or left in the buffer by a line read. */
    function Cap(): nat { Max(maxHeaderBytes, LEFT_OVER) }

    /** The rules that every head of a run is found by, and the limits within which one is always found. */
    function Reads(): Rules { Capped(parse, Cap()) }

    function Limits(): Rules { Reading(parse, maxHeaderBytes, CHUNK_LINE) }
  }

  predicate ConnectSuccess(head: ResponseHead) { 200 <= head.status < 300 }

  /** Malformed or oversized HTTP, as opposed to a failing connection. */
  predicate Malformed(e: ProxyError) { e.Http? && e.error != HttpError.Io }

  /** A read or a write on a connection failed. */
  predicate Faulty(e: ProxyError) { e == IoError || e == Http(HttpError.Io) }

  /** A failing connection attempt and a failing connection are reported, and nothing else is blamed on
      them. */
  ghost predicate Accounted(failure: Option<ProxyError>, refused: bool, broken: bool) {
    && (refused ==> failure == Some(IoError) || failure == Some(ConnectTimeout))
    && (broken ==> failure.Some? && Faulty(failure.value))
    && (failure == Some(ConnectTimeout) ==> refused)
    && (failure.Some? && Faulty(failure.value) ==> refused || broken)
  }

  /** What the last response must have been for a run with this scheme to end with this error. */
  ghost predicate Blames(e: ProxyError, last: ResponseHead, scheme: Option<AuthScheme>, config: Config) {
    match e
    case UpstreamStatus(status) => last.status == status && status != 407 && !(200 <= status <= 299)
    case AuthenticationRequired => last.status == 407 && config.mode == NoAuth
    case AuthenticationSchemeMissing =>
      last.status == 407 && (scheme.None? || config.setting.token(last, scheme.value) == Err(NotOffered))
    case InvalidAuthenticationToken =>
      last.status == 407 && scheme.Some? && config.setting.token(last, scheme.value) == Err(Undecodable)
    case ConnectionClosedDuringAuth => last.status == 407 && config.setting.closes(last)
    case Authentication => last.status == 407
    case TooManyAuthenticationRounds => last.status == 407
    case DirectConnectTimeout => false
    case InvalidDestination => false
    case _ => last.status == 407
  }

  // ---------------------------------------------------------------------------------------------
  // The outside world: what it does is arbitrary

  /** All attempts since then were made to the upstream proxy. */
  ghost predicate OnlyUpstream(before: seq<Target>, after: seq<Target>) {
    before <= after && forall i | |before| <= i < |after| :: after[i] == UpstreamProxy
  }

  lemma UpstreamOnceOrTwice(before: seq<Target>)
    ensures OnlyUpstream(before, before + [UpstreamProxy])
    ensures OnlyUpstream(before, before + [UpstreamProxy] + [UpstreamProxy])
  {
  }

  /** `connect_upstream`: a new connection, if one is opened and can be configured. */
  method ConnectUpstream(net: Network) returns (r: Result<BufferedStream, ProxyError>, ghost dialled: Option<TcpStream>)
    modifies net
    ensures net.attempts == old(net.attempts) + [UpstreamProxy]
    ensures dialled.None? ==> net.sockets == old(net.sockets) && r.Err? && r.error in {IoError, ConnectTimeout}
    ensures dialled.Some? ==>
              && net.sockets == old(net.sockets) + [dialled.value]
              && fresh(dialled.value) && dialled.value.peer == Some(UpstreamProxy) && dialled.value.outgoing == []
              && (dialled.value.failed <==> r.Err?) && (r.Err? ==> r.error == IoError)
    ensures r.Ok? ==>
              && dialled == Some(r.value.stream) && fresh(r.value) && r.value.Valid()
              && r.value.origin == r.value.stream.origin
              && r.value.position == 0 && r.value.buffer == [] && r.value.peak == 0
  {
    var connected := net.Connect(UpstreamProxy);
    dialled := connected;
    if connected.None? {
      if * {
        return Err(ConnectTimeout), dialled;
      }
      return Err(IoError), dialled;
    }
    var configured := connected.value.SetNodelay();
    if !configured {
      return Err(IoError), dialled;
    }
    var upstream := new BufferedStream(connected.value);
    r := Ok(upstream);
  }

  /** A security context: it may answer any challenge with any token, or fail. It remembers what it was
      asked and what it answered. */
  class AuthContext {
    ghost const scheme: AuthScheme
    ghost var log: seq<(Option<Bytes>, Option<Bytes>)>

    constructor (ghost scheme: AuthScheme)
      ensures this.scheme == scheme && log == []
    {
      this.scheme := scheme;
      log := [];
    }

    method Step(challenge: Option<Bytes>) returns (token: Option<Bytes>)
      modifies this
      ensures log == old(log) + [(challenge, token)]
    {
      token := *;
      log := log + [(challenge, token)];
    }
  }

  /** The factory of security contexts: it remembers every request for one and every context it has made. */
  class AuthFactory {
    ghost var requests: seq<AuthScheme>
    ghost var contexts: seq<AuthContext>

    constructor ()
      ensures requests == [] && contexts == []
    {
      requests, contexts := [], [];
    }

    method Create(scheme: AuthScheme) returns (context: Option<AuthContext>)
      modifies this
      ensures requests == old(requests) + [scheme]
      ensures context.None? ==> contexts == old(contexts)
      ensures context.Some? ==>
                && fresh(context.value) && context.value.scheme == scheme && context.value.log == []
                && contexts == old(contexts) + [context.value]
    {
      requests := requests + [scheme];
      if * {
        return None;
      }
      var c := new AuthContext(scheme);
      contexts := contexts + [c];
      context := Some(c);
    }
  }

  // ---------------------------------------------------------------------------------------------
  // One request and its response

  /** Sends a CONNECT and reads the head that answers it: the first head of the logical stream. */
  method Exchange(config: Config, upstream: BufferedStream, authorization: Option<Bytes>)
      returns (r: Result<ResponseHead, ProxyError>)
    requires upstream.Valid() && |upstream.buffer| <= config.Cap()
    modifies upstream, upstream.stream
    ensures upstream.Valid() && |upstream.buffer| <= config.Cap()
    ensures upstream.stream.failed <==> old(upstream.stream.failed) || (r.Err? && Faulty(r.error))
    ensures r.Ok? ==>
              HeadThen(old(upstream.Logical()), config.parse, config.Cap()) == Some(Found(r.value, upstream.Logical()))
    ensures r.Ok? ==>
              upstream.stream.outgoing == old(upstream.stream.outgoing) + config.request(authorization)
    ensures r.Err? ==>
              upstream.stream.outgoing <= old(upstream.stream.outgoing) + config.request(authorization)
    ensures r.Err? ==> r.error == IoError || r.error.Http?
    ensures r.Err? && Malformed(r.error) ==>
              HeadThen(old(upstream.Logical()), config.parse, config.maxHeaderBytes).None?
  {
    ghost var all, limit := upstream.Logical(), Max(config.maxHeaderBytes, |upstream.buffer|);
    var sent := upstream.stream.WriteAll(config.request(authorization));
    if !sent {
      return Err(IoError);
    }
    var head := upstream.ReadResponseHead(config.maxHeaderBytes, config.parse);
    match head
    case Err(e) => r := Err(Http(e));
    case Ok(h) =>
      HeadWithinMore(all, config.parse, limit, config.Cap());
      r := Ok(h);
  }

  // ---------------------------------------------------------------------------------------------
  // Where a run stands

  /** Nothing more has been written to the probe once another socket is in use. */
  ghost predicate ProbeUntouched(t: Trace, t': Trace, socket: nat, request: Option<Bytes> -> Bytes) {
    socket != 0 ==> SentOn(t', 0, request) == SentOn(t, 0, request)
  }

  /** The last head of the trace on this socket was found in its stream, and `rest` follows it. */
  ghost predicate At(origin: Bytes, rest: Bytes, t: Trace, socket: nat, rules: Rules) {
    && LastOn(t, socket).Some?
    && NthHead(origin, |HeadsOn(t, socket)| - 1, rules) == Some(Found(LastOn(t, socket).value, rest))
  }

  /** No head follows the last one of the trace within the limits of the reader. */
  ghost predicate Stuck(origin: Bytes, t: Trace, socket: nat, config: Config) {
    NthHead(origin, |HeadsOn(t, socket)|, config.Limits()).None?
  }

  /** The state at the top of the authentication loop, in round `round`. */
  ghost predicate Ready(t: Trace, s: Setting, socket: nat, round: nat, scheme: AuthScheme,
                        response: ResponseHead, challenge: Option<Bytes>, mustDrain: bool) {
    && Lawful(t, s) && Dials(t) == socket + 1
    && Steps(t) == TokenAsks(t) == round && |Heads(t)| == round + 1
    && Heads(t)[round] == response && response.status == 407
    && SchemeOf(t, s) == Some(scheme)
    && s.token(response, scheme) == Ok(challenge)
    && (if mustDrain then LastOn(t, socket) == Some(response) else HeadsOn(t, socket) == [])
  }

  /** The trace of one more round. */
  ghost function Stepping(t: Trace, challenge: Option<Bytes>, token: Option<Bytes>): Trace {
    Then(t, Stepped(challenge, token))
  }

  ghost function Asking(t: Trace, challenge: Option<Bytes>, token: Bytes, socket: nat, scheme: AuthScheme,
                        s: Setting): Trace {
    Then(Stepping(t, challenge, Some(token)), Asked(socket, Some(s.credentials(scheme, token))))
  }

  /** A round keeps the rules. */
  lemma RoundIsLawful(t: Trace, s: Setting, socket: nat, round: nat, scheme: AuthScheme,
                      response: ResponseHead, challenge: Option<Bytes>, mustDrain: bool, token: Option<Bytes>)
    requires Ready(t, s, socket, round, scheme, response, challenge, mustDrain)
    requires round < MAX_AUTH_ROUNDS && (mustDrain ==> !s.closes(response))
    ensures Lawful(Stepping(t, challenge, token), s)
    ensures token.Some? ==> Lawful(Asking(t, challenge, token.value, socket, scheme, s), s)
  {
    var t1 := Stepping(t, challenge, token);
    assert Heads(t1) == Heads(t) && HeadsOn(t1, socket) == HeadsOn(t, socket);
  }

  ghost function Answering(t: Trace, challenge: Option<Bytes>, token: Bytes, socket: nat, scheme: AuthScheme,
                           s: Setting, next: ResponseHead): Trace {
    Then(Asking(t, challenge, token, socket, scheme, s), Answered(socket, next))
  }

  lemma RoundCounts(t: Trace, s: Setting, socket: nat, scheme: AuthScheme, challenge: Option<Bytes>, token: Bytes,
                    next: ResponseHead)
    ensures var t3 := Answering(t, challenge, token, socket, scheme, s, next);
            && HeadsOn(t3, socket) == HeadsOn(t, socket) + [next]
            && Heads(t3) == Heads(t) + [next]
            && Dials(t3) == Dials(t) && Steps(t3) == Steps(t) + 1
            && TokenAsks(t3) == TokenAsks(t) + 1 && PlainAsks(t3) == PlainAsks(t)
            && TokenSockets(t3) == TokenSockets(t) + {socket}
            && StepLog(t3) == StepLog(t) + [(challenge, Some(token))]
  {
    var t1 := Stepping(t, challenge, Some(token));
    var t2 := Asking(t, challenge, token, socket, scheme, s);
    OneMore(t, t1.event, socket);
    OneMore(t1, t2.event, socket);
    OneMore(t2, Answered(socket, next), socket);
  }

  /** The scheme of the run depends on its first response only. */
  lemma SameScheme(t: Trace, u: Trace, s: Setting)
    requires Heads(t) != [] && Heads(t) <= Heads(u)
    ensures SchemeOf(u, s) == SchemeOf(t, s)
  {
    assert Heads(u)[0] == Heads(t)[0];
  }

  /** After a 407 with a readable challenge the next round is ready. */
  lemma RoundLeadsOn(t: Trace, s: Setting, socket: nat, round: nat, scheme: AuthScheme,
                     response: ResponseHead, challenge: Option<Bytes>, mustDrain: bool, token: Bytes,
                     next: ResponseHead, challenge': Option<Bytes>)
    requires Ready(t, s, socket, round, scheme, response, challenge, mustDrain)
    requires Lawful(Answering(t, challenge, token, socket, scheme, s, next), s)
    requires next.status == 407 && s.token(next, scheme) == Ok(challenge')
    ensures Ready(Answering(t, challenge, token, socket, scheme, s, next), s, socket, round + 1, scheme,
                  next, challenge', true)
  {
    RoundCounts(t, s, socket, scheme, challenge, token, next);
    SameScheme(t, Answering(t, challenge, token, socket, scheme, s, next), s);
  }

  datatype Round = Established | Again(response: ResponseHead, challenge: Option<Bytes>)

  /** Skips the body of the `k`-th response of a connection. */
  method SkipBody(config: Config, upstream: BufferedStream, response: ResponseHead, ghost k: nat)
      returns (r: Result<(), HttpError>)
    requires upstream.Valid() && |upstream.buffer| <= config.Cap()
    requires NthHead(upstream.origin, k, config.Reads()) == Some(Found(response, upstream.Logical()))
    modifies upstream, upstream.stream`incoming, upstream.stream`failed
    ensures upstream.Valid() && (r.Ok? ==> |upstream.buffer| <= config.Cap())
    ensures upstream.stream.failed <==> old(upstream.stream.failed) || r == Err(HttpError.Io)
    ensures r.Ok? ==> HeadStart(upstream.origin, k + 1, config.Reads()) == Some(upstream.Logical())
    ensures r.Err? && r.error != HttpError.Io ==> NthHead(upstream.origin, k + 1, config.Limits()).None?
  {
    SkipHere(upstream.origin, k, Found(response, upstream.Logical()),
             config.parse, config.maxHeaderBytes, CHUNK_LINE, config.Cap());
    r := upstream.DrainResponseBody(response);
  }

  /** Skips the body of the response before the connection is used again: afterwards the connection stands
      where head number `n` begins. */
  method PassBody(config: Config, upstream: BufferedStream, response: ResponseHead, mustDrain: bool, ghost n: nat)
      returns (r: Result<(), ProxyError>)
    requires upstream.Valid() && |upstream.buffer| <= config.Cap()
    requires if mustDrain then
               n > 0 && NthHead(upstream.origin, n - 1, config.Reads()) == Some(Found(response, upstream.Logical()))
             else n == 0 && upstream.Logical() == upstream.origin
    modifies upstream, upstream.stream`incoming, upstream.stream`failed
    ensures upstream.Valid() && (r.Ok? ==> |upstream.buffer| <= config.Cap())
    ensures upstream.stream.failed <==> old(upstream.stream.failed) || (r.Err? && Faulty(r.error))
    ensures r.Ok? ==> HeadStart(upstream.origin, n, config.Reads()) == Some(upstream.Logical())
    ensures r.Ok? && mustDrain ==> !config.setting.closes(response)
    ensures r.Err? && Malformed(r.error) ==> NthHead(upstream.origin, n, config.Limits()).None?
    ensures r.Err? ==>
              r.error.Http? || (r.error == ConnectionClosedDuringAuth && mustDrain && config.setting.closes(response))
  {
    if mustDrain {
      if config.setting.closes(response) {
        return Err(ConnectionClosedDuringAuth);
      }
      var drained := SkipBody(config, upstream, response, n - 1);
      if drained.Err? {
        return Err(Http(drained.error));
      }
    }
    r := Ok(());
  }

  /** What a response in the loop leads to: a 2xx to success, a 407 with a readable challenge of the scheme
      to another round, and anything else to the error it deserves. */
  ghost predicate Judged(r: Result<Round, ProxyError>, next: ResponseHead, scheme: AuthScheme, config: Config) {
    && (r == Ok(Established) <==> 200 <= next.status <= 299)
    && (r.Ok? && r.value.Again? <==> next.status == 407 && config.setting.token(next, scheme).Ok?)
    && (r.Ok? && r.value.Again? ==>
          r.value.response == next && config.setting.token(next, scheme) == Ok(r.value.challenge))
    && (r.Err? ==> !r.error.Http? && !Faulty(r.error) && r.error != ConnectTimeout && r.error != Authentication
                   && r.error != ConnectionClosedDuringAuth && r.error != TooManyAuthenticationRounds
                   && Blames(r.error, next, Some(scheme), config))
  }

  method Judge(config: Config, next: ResponseHead, scheme: AuthScheme) returns (r: Result<Round, ProxyError>)
    ensures Judged(r, next, scheme, config)
  {
    if ConnectSuccess(next) {
      return Ok(Established);
    }
    if next.status != 407 {
      return Err(UpstreamStatus(next.status));
    }
    match config.setting.token(next, scheme)
    case Err(NotOffered) => r := Err(AuthenticationSchemeMissing);
    case Err(Undecodable) => r := Err(InvalidAuthenticationToken);
    case Ok(token) => r := Ok(Again(next, token));
  }

  /** A trace with one more request, and what is known once it is answered. */
  lemma AnswerIsAligned(t: Trace, socket: nat, authorization: Option<Bytes>, head: ResponseHead, rest: Bytes,
                        origins: seq<Bytes>, rules: Rules)
    requires Aligned(t, origins, rules) && socket < |origins|
    requires NthHead(origins[socket], |HeadsOn(t, socket)|, rules) == Some(Found(head, rest))
    ensures var u := Then(Then(t, Asked(socket, authorization)), Answered(socket, head));
            && Aligned(u, origins, rules)
            && LastOn(u, socket) == Some(head)
            && At(origins[socket], rest, u, socket, rules)
  {
    var t1 := Then(t, Asked(socket, authorization));
    OneMore(t, Asked(socket, authorization), socket);
    OneMore(t1, Answered(socket, head), socket);
  }

  /** Sends one request and reads its answer, on a socket that has come to the start of a head. */
  method Ask(config: Config, upstream: BufferedStream, authorization: Option<Bytes>,
             ghost t: Trace, ghost socket: nat, ghost origins: seq<Bytes>)
      returns (r: Result<ResponseHead, ProxyError>, ghost t': Trace)
    requires upstream.Valid() && |upstream.buffer| <= config.Cap()
    requires |origins| == socket + 1 && upstream.origin == origins[socket]
    requires HeadStart(upstream.origin, |HeadsOn(t, socket)|, config.Reads()) == Some(upstream.Logical())
    requires Aligned(t, origins, config.Reads())
    requires upstream.stream.outgoing == SentOn(t, socket, config.request)
    modifies upstream, upstream.stream
    ensures upstream.Valid() && |upstream.buffer| <= config.Cap()
    ensures upstream.stream.failed <==> old(upstream.stream.failed) || (r.Err? && Faulty(r.error))
    ensures Aligned(t', origins, config.Reads())
    ensures r.Ok? ==> t' == Then(Then(t, Asked(socket, authorization)), Answered(socket, r.value))
                      && LastOn(t', socket) == Some(r.value)
                      && At(upstream.origin, upstream.Logical(), t', socket, config.Reads())
                      && upstream.stream.outgoing == SentOn(t', socket, config.request)
    ensures r.Err? ==> t' == Then(t, Asked(socket, authorization))
                       && (Malformed(r.error) ==> Stuck(upstream.origin, t', socket, config))
                       && (r.error == IoError || r.error.Http?)
                       && upstream.stream.outgoing <= SentOn(t', socket, config.request)
    ensures ProbeUntouched(t, t', socket, config.request) && StepLog(t') == StepLog(t)
  {
    t' := Then(t, Asked(socket, authorization));
    ReadHere(upstream.origin, |HeadsOn(t, socket)|, upstream.Logical(),
             config.parse, config.maxHeaderBytes, CHUNK_LINE, config.Cap());
    OneMore(t, Asked(socket, authorization), socket);
    r := Exchange(config, upstream, authorization);
    if r.Ok? {
      AnswerIsAligned(t, socket, authorization, r.value, upstream.Logical(), origins, config.Reads());
      t' := Then(t', Answered(socket, r.value));
    }
  }

  /** What does not change in the authentication loop: its settings, the trace it started from, the first
      response, the socket it uses and what all sockets deliver. */
  datatype Task = Task(config: Config, scheme: AuthScheme, start: Trace, first: ResponseHead, socket: nat,
                       origins: seq<Bytes>)

  /** Where the loop is: its trace, what is left to read on the socket, what was written to it, and whether
      an operation on it has failed. */
  datatype Place = Place(t: Trace, rest: Bytes, outgoing: Bytes, failed: bool)

  /** The first response of a trace. */
  ghost predicate Began(t: Trace, first: ResponseHead) { Heads(t) != [] && Heads(t)[0] == first }

  ghost function Here(upstream: BufferedStream, t: Trace): Place
    requires upstream.Valid()
    reads upstream, upstream.stream
  {
    Place(t, upstream.Logical(), upstream.stream.outgoing, upstream.stream.failed)
  }

  /** At the top of the loop, in round `round`. */
  ghost predicate Standing(k: Task, p: Place, round: nat, response: ResponseHead, challenge: Option<Bytes>,
                           mustDrain: bool) {
    && |k.origins| == k.socket + 1 && !p.failed && Began(p.t, k.first)
    && (round == 0 && mustDrain ==> !k.config.setting.closes(response))
    && Ready(p.t, k.config.setting, k.socket, round, k.scheme, response, challenge, mustDrain)
    && Aligned(p.t, k.origins, k.config.Reads())
    && (if mustDrain then At(k.origins[k.socket], p.rest, p.t, k.socket, k.config.Reads())
        else p.rest == k.origins[k.socket])
    && p.outgoing == SentOn(p.t, k.socket, k.config.request) && ProbeUntouched(k.start, p.t, k.socket, k.config.request)
  }

  /** The loop is over: with a connection that has been granted, or with a failure that the trace explains. */
  ghost predicate Over(k: Task, p: Place, failure: Option<ProxyError>) {
    && |k.origins| == k.socket + 1 && Began(p.t, k.first)
    && Explained(failure, p.t, k.origins, k.config) && Dials(p.t) == k.socket + 1
    && p.outgoing <= SentOn(p.t, k.socket, k.config.request) && ProbeUntouched(k.start, p.t, k.socket, k.config.request)
    && (p.failed <==> failure.Some? && Faulty(failure.value)) && failure != Some(ConnectTimeout)
    && (failure.None? ==> Handed(k.origins[k.socket], p.rest, p.outgoing, p.t, k.origins, k.config))
  }

  /** How a round can end. */
  ghost predicate RoundEnds(k: Task, p: Place, round: nat, r: Result<Round, ProxyError>) {
    match r
    case Ok(Established) => Over(k, p, None)
    case Ok(Again(response, challenge)) => Standing(k, p, round + 1, response, challenge, true)
    case Err(e) => Over(k, p, Some(e))
  }

  lemma OverBeforeStep(k: Task, p: Place, p': Place, round: nat, response: ResponseHead, challenge: Option<Bytes>,
                       mustDrain: bool, e: ProxyError)
    requires Standing(k, p, round, response, challenge, mustDrain) && p'.t == p.t && p'.outgoing == p.outgoing
    requires p'.failed <==> Faulty(e)
    requires Malformed(e) ==> Stuck(k.origins[k.socket], p.t, k.socket, k.config)
    requires e.Http? || (e == ConnectionClosedDuringAuth && mustDrain && k.config.setting.closes(response))
    ensures Over(k, p', Some(e))
  {
    RoundBegins(p.t, k.config.setting, k.socket, round, k.scheme, response, challenge, mustDrain);
  }

  /** The last event before a round is neither a step nor a request. */
  lemma RoundBegins(t: Trace, s: Setting, socket: nat, round: nat, scheme: AuthScheme,
                    response: ResponseHead, challenge: Option<Bytes>, mustDrain: bool)
    requires Ready(t, s, socket, round, scheme, response, challenge, mustDrain)
    ensures t.Then? && !t.event.Asked? && !t.event.Stepped?
    ensures t.event.Answered? ==> t.event.head == response
  {
    Accounting(t, s);
  }

  /** What it takes for a failure in the middle of a round to be explained. */
  lemma OverMidway(k: Task, p: Place, response: ResponseHead, e: ProxyError)
    requires |k.origins| == k.socket + 1 && Began(p.t, k.first)
    requires Lawful(p.t, k.config.setting) && Aligned(p.t, k.origins, k.config.Reads()) && Dials(p.t) == k.socket + 1
    requires p.outgoing <= SentOn(p.t, k.socket, k.config.request)
    requires ProbeUntouched(k.start, p.t, k.socket, k.config.request)
    requires Heads(p.t) != [] && Heads(p.t)[|Heads(p.t)| - 1] == response && response.status == 407
    requires e == IoError || e.Http? || e == Authentication
    requires (p.failed <==> Faulty(e)) && (Malformed(e) ==> Stuck(k.origins[k.socket], p.t, k.socket, k.config))
    requires EndsWell(Some(e), p.t, k.config.setting)
    ensures Over(k, p, Some(e))
  {
  }

  lemma OverAtStep(k: Task, p: Place, p': Place, round: nat, response: ResponseHead, challenge: Option<Bytes>,
                   mustDrain: bool)
    requires Standing(k, p, round, response, challenge, mustDrain)
    requires p'.t == Stepping(p.t, challenge, None) && p'.outgoing == p.outgoing && Lawful(p'.t, k.config.setting)
    requires !p'.failed
    ensures Over(k, p', Some(Authentication))
  {
    StepCounts(p.t, challenge, None, k.socket, k.config.request);
    StepCounts(p.t, challenge, None, 0, k.config.request);
    OverMidway(k, p', response, Authentication);
  }

  /** A step changes nothing but the log of steps. */
  lemma StepCounts(t: Trace, challenge: Option<Bytes>, token: Option<Bytes>, socket: nat,
                   request: Option<Bytes> -> Bytes)
    ensures var u := Stepping(t, challenge, token);
            && SentOn(u, socket, request) == SentOn(t, socket, request) && HeadsOn(u, socket) == HeadsOn(t, socket)
            && Heads(u) == Heads(t) && Dials(u) == Dials(t) && Steps(u) == Steps(t) + 1
  {
    OneMore(t, Stepped(challenge, token), socket);
  }

  /** A step and a request leave what was read, and what was written to other sockets, as they are. */
  lemma AskCounts(t: Trace, s: Setting, socket: nat, scheme: AuthScheme, challenge: Option<Bytes>, token: Bytes,
                  request: Option<Bytes> -> Bytes)
    ensures var u := Asking(t, challenge, token, socket, scheme, s);
            && Heads(u) == Heads(t) && Dials(u) == Dials(t) && ProbeUntouched(t, u, socket, request)
  {
    StepCounts(t, challenge, Some(token), 0, request);
    OneMore(Stepping(t, challenge, Some(token)), Asked(socket, Some(s.credentials(scheme, token))), 0);
  }

  lemma OverUnanswered(k: Task, p: Place, p': Place, round: nat, response: ResponseHead, challenge: Option<Bytes>,
                       mustDrain: bool, token: Bytes, e: ProxyError)
    requires Standing(k, p, round, response, challenge, mustDrain)
    requires p'.t == Asking(p.t, challenge, token, k.socket, k.scheme, k.config.setting)
    requires Lawful(p'.t, k.config.setting) && Aligned(p'.t, k.origins, k.config.Reads())
    requires p'.outgoing <= SentOn(p'.t, k.socket, k.config.request)
    requires Malformed(e) ==> Stuck(k.origins[k.socket], p'.t, k.socket, k.config)
    requires (e == IoError || e.Http?) && (p'.failed <==> Faulty(e))
    ensures Over(k, p', Some(e))
  {
    AskCounts(p.t, k.config.setting, k.socket, k.scheme, challenge, token, k.config.request);
    OverMidway(k, p', response, e);
  }

  lemma AnsweredEnds(k: Task, p: Place, p': Place, round: nat, response: ResponseHead, challenge: Option<Bytes>,
                     mustDrain: bool, token: Bytes, next: ResponseHead, r: Result<Round, ProxyError>)
    requires Standing(k, p, round, response, challenge, mustDrain)
    requires p'.t == Answering(p.t, challenge, token, k.socket, k.scheme, k.config.setting, next)
    requires Lawful(p'.t, k.config.setting) && Aligned(p'.t, k.origins, k.config.Reads())
    requires At(k.origins[k.socket], p'.rest, p'.t, k.socket, k.config.Reads())
    requires p'.outgoing == SentOn(p'.t, k.socket, k.config.request) && !p'.failed
    requires Judged(r, next, k.scheme, k.config)
    ensures RoundEnds(k, p', round, r)
  {
    RoundCounts(p.t, k.config.setting, k.socket, k.scheme, challenge, token, next);
    SameScheme(p.t, p'.t, k.config.setting);
    RoundStaysOn(p.t, k.config, k.socket, k.scheme, challenge, token, next);
    if r.Ok? && r.value.Again? {
      RoundLeadsOn(p.t, k.config.setting, k.socket, round, k.scheme, response, challenge, mustDrain, token,
                   next, r.value.challenge);
    }
  }

  /** A round writes to its own socket only. */
  lemma RoundStaysOn(t: Trace, config: Config, socket: nat, scheme: AuthScheme, challenge: Option<Bytes>, token: Bytes,
                     next: ResponseHead)
    ensures ProbeUntouched(t, Answering(t, challenge, token, socket, scheme, config.setting, next),
                           socket, config.request)
  {
    var t1 := Stepping(t, challenge, Some(token));
    var t2 := Asking(t, challenge, token, socket, scheme, config.setting);
    assert SentOn(t1, 0, config.request) == SentOn(t, 0, config.request);
    assert socket != 0 ==> SentOn(t2, 0, config.request) == SentOn(t1, 0, config.request);
  }

  /** A step touches neither the socket nor what was read from it. */
  lemma StepChangesLittle(k: Task, p: Place, round: nat, response: ResponseHead, challenge: Option<Bytes>,
                          mustDrain: bool, token: Bytes)
    requires Standing(k, p, round, response, challenge, mustDrain)
    ensures var u := Stepping(p.t, challenge, Some(token));
            && HeadsOn(u, k.socket) == HeadsOn(p.t, k.socket)
            && SentOn(u, k.socket, k.config.request) == p.outgoing
            && Aligned(u, k.origins, k.config.Reads())
            && StepLog(u) == StepLog(p.t) + [(challenge, Some(token))]
  {
    OneMore(p.t, Stepped(challenge, Some(token)), k.socket);
  }

  /** The second half of a round: presents the token and judges the answer. */
  method Present(config: Config, upstream: BufferedStream, scheme: AuthScheme, token: Bytes,
                 ghost k: Task, ghost p: Place, ghost round: nat, ghost response: ResponseHead,
                 ghost challenge: Option<Bytes>, ghost mustDrain: bool)
      returns (r: Result<Round, ProxyError>, ghost t': Trace)
    requires k.config == config && k.scheme == scheme
    requires Standing(k, p, round, response, challenge, mustDrain)
    requires upstream.Valid() && |upstream.buffer| <= config.Cap() && upstream.origin == k.origins[k.socket]
    requires upstream.stream.outgoing == p.outgoing && !upstream.stream.failed
    requires HeadStart(upstream.origin, |HeadsOn(p.t, k.socket)|, config.Reads()) == Some(upstream.Logical())
    requires Lawful(Asking(p.t, challenge, token, k.socket, scheme, config.setting), config.setting)
    modifies upstream, upstream.stream
    ensures upstream.Valid() && |upstream.buffer| <= config.Cap()
    ensures RoundEnds(k, Here(upstream, t'), round, r)
    ensures StepLog(t') == StepLog(p.t) + [(challenge, Some(token))]
  {
    ghost var stepped := Stepping(p.t, challenge, Some(token));
    StepChangesLittle(k, p, round, response, challenge, mustDrain, token);
    var authorization := config.setting.credentials(scheme, token);
    var answer;
    answer, t' := Ask(config, upstream, Some(authorization), stepped, k.socket, k.origins);
    match answer
    case Err(e) =>
      OverUnanswered(k, p, Here(upstream, t'), round, response, challenge, mustDrain, token, e);
      r := Err(e);
    case Ok(next) =>
      r := Judge(config, next, scheme);
      AnsweredEnds(k, p, Here(upstream, t'), round, response, challenge, mustDrain, token, next, r);
  }

  /** A round once the connection is ready for another request. */
  method StepAndPresent(config: Config, upstream: BufferedStream, context: AuthContext, scheme: AuthScheme,
                        challenge: Option<Bytes>, ghost k: Task, ghost p: Place, ghost round: nat,
                        ghost response: ResponseHead, ghost mustDrain: bool)
      returns (r: Result<Round, ProxyError>, ghost t': Trace)
    requires k.config == config && k.scheme == scheme && round < MAX_AUTH_ROUNDS
    requires Standing(k, p, round, response, challenge, mustDrain) && (mustDrain ==> !config.setting.closes(response))
    requires upstream.Valid() && |upstream.buffer| <= config.Cap() && upstream.origin == k.origins[k.socket]
    requires upstream.stream.outgoing == p.outgoing && !upstream.stream.failed
    requires HeadStart(upstream.origin, |HeadsOn(p.t, k.socket)|, config.Reads()) == Some(upstream.Logical())
    requires context.log == StepLog(p.t)
    modifies upstream, upstream.stream, context
    ensures upstream.Valid() && |upstream.buffer| <= config.Cap()
    ensures RoundEnds(k, Here(upstream, t'), round, r)
    ensures context.log == StepLog(t')
  {
    var token := context.Step(challenge);
    RoundIsLawful(p.t, config.setting, k.socket, round, scheme, response, challenge, mustDrain, token);
    if token.None? {
      t' := Stepping(p.t, challenge, None);
      OverAtStep(k, p, Here(upstream, t'), round, response, challenge, mustDrain);
      return Err(Authentication), t';
    }
    r, t' := Present(config, upstream, scheme, token.value, k, p, round, response, challenge, mustDrain);
  }

  /** What the connection has to offer at the top of the loop, for the body to be skipped. */
  lemma ReadyToPass(k: Task, p: Place, round: nat, response: ResponseHead, challenge: Option<Bytes>, mustDrain: bool)
    requires Standing(k, p, round, response, challenge, mustDrain)
    ensures var n := |HeadsOn(p.t, k.socket)|;
            if mustDrain then
              n > 0 && NthHead(k.origins[k.socket], n - 1, k.config.Reads()) == Some(Found(response, p.rest))
            else n == 0 && p.rest == k.origins[k.socket]
  {
  }

  /** One round of the authentication loop. */
  method AuthRound(config: Config, upstream: BufferedStream, context: AuthContext,
                   scheme: AuthScheme, response: ResponseHead, challenge: Option<Bytes>, mustDrain: bool,
                   ghost k: Task, ghost p: Place, ghost round: nat)
      returns (r: Result<Round, ProxyError>, ghost t': Trace)
    requires k.config == config && k.scheme == scheme && round < MAX_AUTH_ROUNDS
    requires upstream.Valid() && |upstream.buffer| <= config.Cap()
    requires p == Here(upstream, p.t) && Standing(k, p, round, response, challenge, mustDrain)
    requires upstream.origin == k.origins[k.socket]
    requires context.log == StepLog(p.t)
    modifies upstream, upstream.stream, context
    ensures upstream.Valid() && (r.Ok? ==> |upstream.buffer| <= config.Cap())
    ensures RoundEnds(k, Here(upstream, t'), round, r)
    ensures context.log == StepLog(t')
  {
    ReadyToPass(k, p, round, response, challenge, mustDrain);
    var passed := PassBody(config, upstream, response, mustDrain, |HeadsOn(p.t, k.socket)|);
    if passed.Err? {
      OverBeforeStep(k, p, Here(upstream, p.t), round, response, challenge, mustDrain, passed.error);
      return Err(passed.error), p.t;
    }
    r, t' := StepAndPresent(config, upstream, context, scheme, challenge, k, p, round, response, mustDrain);
  }

  /** The trace of the probe: connect, ask without a token, read the answer. */
  ghost function Probed(head: ResponseHead): Trace {
    Then(Then(Then(Start, Dialed(0)), Asked(0, None)), Answered(0, head))
  }

  lemma ProbeCounts(head: ResponseHead, s: Setting)
    ensures var t := Probed(head);
            && Lawful(t.past, s) && Lawful(t, s)
            && Dials(t) == 1 && Dials(t.past) == 1 && Steps(t) == 0 && TokenAsks(t) == 0 && PlainAsks(t) == 1
            && Heads(t) == [head] && HeadsOn(t, 0) == [head] && HeadsOn(t, 1) == [] && Heads(t.past) == []
            && TokenSockets(t) == {} && StepLog(t) == [] && StepLog(t.past) == []
  {
    var t1 := Then(Start, Dialed(0));
    var t2 := Then(t1, Asked(0, None));
    OneMore(Start, Dialed(0), 0);
    OneMore(t1, Asked(0, None), 0);
    OneMore(t2, Answered(0, head), 0);
    OneMore(Start, Dialed(0), 1);
    OneMore(t1, Asked(0, None), 1);
    OneMore(t2, Answered(0, head), 1);
  }

  lemma ProbeReady(head: ResponseHead, s: Setting, scheme: AuthScheme, challenge: Option<Bytes>)
    requires head.status == 407
    requires s.scheme(head) == Ok(scheme) && s.token(head, scheme) == Ok(challenge)
    ensures Ready(Probed(head), s, 0, 0, scheme, head, challenge, true)
    ensures s.closes(head) && challenge.None? ==>
              Ready(Then(Probed(head), Dialed(1)), s, 1, 0, scheme, head, challenge, false)
  {
    ProbeCounts(head, s);
    OneMore(Probed(head), Dialed(1), 1);
    SameScheme(Probed(head), Then(Probed(head), Dialed(1)), s);
  }

  /** How the last event fits the way a run ends: right after a 2xx with success; right after a step only if
      the security context failed; with a request unanswered only because of the connection; and for a
      closing first response only if its challenge has a token. */
  ghost predicate EndsWell(failure: Option<ProxyError>, t: Trace, s: Setting) {
    && (failure.None? <==> t.Then? && t.event.Answered? && 200 <= t.event.head.status <= 299)
    && (t.Then? && t.event.Stepped? ==> failure == Some(Authentication))
    && (failure == Some(Authentication) ==> Steps(t) == 0 || (t.Then? && t.event.Stepped? && t.event.token.None?))
    && (t.Then? && t.event.Asked? ==> failure == Some(IoError) || (failure.Some? && failure.value.Http?))
    && (failure == Some(ConnectionClosedDuringAuth) && Steps(t) == 0 ==>
          && Heads(t) != [] && SchemeOf(t, s).Some?
          && s.token(Heads(t)[0], SchemeOf(t, s).value).Ok? && s.token(Heads(t)[0], SchemeOf(t, s).value).value.Some?)
  }

  /** What is known of every finished handshake. */
  ghost predicate Explained(failure: Option<ProxyError>, t: Trace, origins: seq<Bytes>, config: Config) {
    && Lawful(t, config.setting)
    && |origins| == Dials(t)
    && Aligned(t, origins, config.Reads())
    && (failure.Some? && Malformed(failure.value) ==>
          Dials(t) > 0 && Stuck(origins[Dials(t) - 1], t, Dials(t) - 1, config))
    && EndsWell(failure, t, config.setting)
    && (failure == Some(TooManyAuthenticationRounds) ==>
          TokenAsks(t) == 4 && |Heads(t)| == 5)
    && (failure.Some? && Heads(t) == [] ==> failure.value in {IoError, ConnectTimeout} || failure.value.Http?)
    && (failure.Some? && Heads(t) != [] ==>
          Blames(failure.value, Heads(t)[|Heads(t)| - 1], SchemeOf(t, config.setting), config))
  }

  /** Completeness: a connection that still has correctly framed responses to deliver never makes the
      reader complain about malformed or oversized HTTP. */
  lemma FramedNeverStuck(t: Trace, socket: nat, config: Config, ms: seq<Message>, tail: Bytes, k: nat)
    requires k == |HeadsOn(t, socket)| < |ms|
    requires forall i | 0 <= i < k :: Framed(ms[i], config.parse, config.maxHeaderBytes, CHUNK_LINE)
    requires HeadFits(ms[k], config.parse, config.maxHeaderBytes)
    ensures !Stuck(Send(ms) + tail, t, socket, config)
  {
    KthHeadIsKthResponse(ms, tail, k, config.parse, config.maxHeaderBytes, CHUNK_LINE);
  }

  /** What is known of the connection a successful handshake returns: its last head was a 2xx, it
      stands right behind that head, and exactly the requests of the trace were written to it. */
  ghost predicate Ready200(upstream: BufferedStream, t: Trace, origins: seq<Bytes>, config: Config)
    reads upstream, upstream.stream
  {
    && upstream.Valid() && !upstream.stream.failed
    && Handed(upstream.origin, upstream.Logical(), upstream.stream.outgoing, t, origins, config)
  }

  ghost predicate Handed(origin: Bytes, rest: Bytes, outgoing: Bytes, t: Trace, origins: seq<Bytes>,
                         config: Config) {
    && Dials(t) > 0 && |origins| == Dials(t) && origin == origins[Dials(t) - 1]
    && At(origin, rest, t, Dials(t) - 1, config.Reads())
    && 200 <= LastOn(t, Dials(t) - 1).value.status <= 299
    && outgoing == SentOn(t, Dials(t) - 1, config.request)
  }

  lemma RoundsExhausted(k: Task, p: Place, response: ResponseHead, challenge: Option<Bytes>, mustDrain: bool)
    requires Standing(k, p, MAX_AUTH_ROUNDS, response, challenge, mustDrain)
    ensures Over(k, p, Some(TooManyAuthenticationRounds))
  {
    RoundBegins(p.t, k.config.setting, k.socket, MAX_AUTH_ROUNDS, k.scheme, response, challenge, mustDrain);
  }

  /** Connects and asks without a token. */
  method Probe(config: Config, net: Network)
      returns (r: Result<(BufferedStream, ResponseHead), ProxyError>, ghost t: Trace, ghost dialled: Option<TcpStream>)
    modifies net
    ensures net.attempts == old(net.attempts) + [UpstreamProxy]
    ensures dialled.None? ==>
              r.Err? && t == Start && net.sockets == old(net.sockets) && r.error in {IoError, ConnectTimeout}
    ensures dialled.Some? ==>
              && net.sockets == old(net.sockets) + [dialled.value]
              && fresh(dialled.value) && dialled.value.peer == Some(UpstreamProxy)
              && dialled.value.outgoing <= SentOn(t, 0, config.request)
              && Aligned(t, [dialled.value.origin], config.Reads())
              && (dialled.value.failed <==> r.Err? && Faulty(r.error))
              && (r.Err? ==> r.error != ConnectTimeout)
    ensures r.Ok? ==>
              && fresh(r.value.0) && dialled == Some(r.value.0.stream) && r.value.0.origin == r.value.0.stream.origin
              && t == Probed(r.value.1) && r.value.0.Valid() && |r.value.0.buffer| <= config.Cap()
              && At(r.value.0.origin, r.value.0.Logical(), t, 0, config.Reads())
              && r.value.0.stream.outgoing == SentOn(t, 0, config.request)
    ensures r.Err? && dialled.Some? ==>
              Explained(Some(r.error), t, [dialled.value.origin], config) && StepLog(t) == [] && Heads(t) == []
  {
    t := Start;
    var connected;
    connected, dialled := ConnectUpstream(net);
    if dialled.Some? {
      t := Then(Start, Dialed(0));
      JustDialed(config);
    }
    if connected.Err? {
      if dialled.Some? {
        UnansweredProbe(t, IoError, dialled.value.origin, config);
      }
      return Err(connected.error), t, dialled;
    }
    var upstream := connected.value;
    var answer;
    answer, t := Ask(config, upstream, None, t, 0, [upstream.origin]);
    match answer
    case Err(e) =>
      UnansweredProbe(t, e, upstream.origin, config);
      r := Err(e);
    case Ok(head) =>
      r := Ok((upstream, head));
  }

  /** The first connection, before anything is sent. */
  lemma JustDialed(config: Config)
    ensures var t := Then(Start, Dialed(0));
            && Lawful(t, config.setting) && HeadsOn(t, 0) == [] && SentOn(t, 0, config.request) == []
            && Dials(t) == 1 && Heads(t) == [] && StepLog(t) == []
  {
  }

  /** A run that ends before its first response. */
  lemma UnansweredProbe(t: Trace, e: ProxyError, origin: Bytes, config: Config)
    requires t == Then(Start, Dialed(0)) || t == Then(Then(Start, Dialed(0)), Asked(0, None))
    requires (e == IoError || e.Http?) && Aligned(t, [origin], config.Reads())
    requires Malformed(e) ==> Stuck(origin, t, 0, config)
    ensures Explained(Some(e), t, [origin], config) && StepLog(t) == [] && Heads(t) == []
  {
    JustDialed(config);
    OneMore(Then(Start, Dialed(0)), Asked(0, None), 0);
  }

  /** The authentication loop. */
  method Authenticate(config: Config, upstream: BufferedStream, context: AuthContext,
                      scheme: AuthScheme, first: ResponseHead, firstChallenge: Option<Bytes>, drainFirst: bool,
                      ghost k: Task)
      returns (r: Result<(), ProxyError>, ghost t: Trace)
    requires k.config == config && k.scheme == scheme
    requires upstream.Valid() && |upstream.buffer| <= config.Cap()
    requires Standing(k, Here(upstream, k.start), 0, first, firstChallenge, drainFirst)
    requires upstream.origin == k.origins[k.socket]
    requires context.log == StepLog(k.start)
    modifies upstream, upstream.stream, context
    ensures upstream.Valid()
    ensures Over(k, Here(upstream, t), if r.Ok? then None else Some(r.error))
    ensures context.log == StepLog(t)
  {
    var response, challenge, mustDrain := first, firstChallenge, drainFirst;
    t := k.start;
    for round := 0 to MAX_AUTH_ROUNDS
      invariant upstream.Valid() && |upstream.buffer| <= config.Cap()
      invariant Standing(k, Here(upstream, t), round, response, challenge, mustDrain)
      invariant context.log == StepLog(t)
    {
      var outcome;
      outcome, t :=
        AuthRound(config, upstream, context, scheme, response, challenge, mustDrain, k, Here(upstream, t), round);
      match outcome
      case Err(e) =>
        return Err(e), t;
      case Ok(Established) =>
        return Ok(()), t;
      case Ok(Again(next, nextChallenge)) =>
        response, challenge, mustDrain := next, nextChallenge, true;
    }
    RoundsExhausted(k, Here(upstream, t), response, challenge, mustDrain);
    r := Err(TooManyAuthenticationRounds);
  }

  /** The security context the first response of a run calls for. */
  ghost function Wanted(head: ResponseHead, config: Config): seq<AuthScheme> {
    if head.status == 407 && config.mode != NoAuth && config.setting.scheme(head).Ok?
    then [config.setting.scheme(head).value] else []
  }

  ghost function WantedIn(t: Trace, config: Config): seq<AuthScheme> {
    if Heads(t) == [] then [] else Wanted(Heads(t)[0], config)
  }

  /** The contexts a run may have made, at most one, and what they were asked. */
  ghost predicate Made(context: Option<AuthContext>, before: seq<AuthContext>, after: seq<AuthContext>,
                       t: Trace, s: Setting)
    reads if context.Some? then {context.value} else {}
  {
    match context
    case None => after == before && StepLog(t) == []
    case Some(c) => after == before + [c] && c.log == StepLog(t) && SchemeOf(t, s) == Some(c.scheme)
  }

  /** What the first response asks for: a scheme, a security context and the first challenge. */
  method Consider(config: Config, factory: AuthFactory, response: ResponseHead)
      returns (r: Result<(AuthScheme, AuthContext, Option<Bytes>), ProxyError>, ghost made: Option<AuthContext>)
    requires !ConnectSuccess(response)
    modifies factory
    ensures factory.requests == old(factory.requests) + Wanted(response, config)
    ensures Made(made, old(factory.contexts), factory.contexts, Probed(response), config.setting)
    ensures made.Some? ==> fresh(made.value)
    ensures r.Ok? ==>
              && made == Some(r.value.1)
              && Ready(Probed(response), config.setting, 0, 0, r.value.0, response, r.value.2, true)
              && (config.setting.closes(response) ==>
                    Ready(Then(Probed(response), Dialed(1)), config.setting, 1, 0, r.value.0, response, r.value.2,
                          false))
    ensures r.Err? ==> !r.error.Http? && !Faulty(r.error) && r.error != ConnectTimeout
                       && r.error != TooManyAuthenticationRounds
                       && EndsWell(Some(r.error), Probed(response), config.setting)
                       && Blames(r.error, response, SchemeOf(Probed(response), config.setting), config)
  {
    made := None;
    ProbeCounts(response, config.setting);
    if response.status != 407 {
      return Err(UpstreamStatus(response.status)), made;
    }
    if config.mode == NoAuth {
      return Err(ProxyError.AuthenticationRequired), made;
    }
    var scheme := config.setting.scheme(response);
    if scheme.Err? {
      return Err(AuthenticationSchemeMissing), made;
    }
    var context := factory.Create(scheme.value);
    made := context;
    if context.None? {
      return Err(Authentication), made;
    }
    var challenge := config.setting.token(response, scheme.value);
    if challenge.Err? {
      r := Err(if challenge.error == NotOffered then AuthenticationSchemeMissing else InvalidAuthenticationToken);
      return;
    }
    ProbeReady(response, config.setting, scheme.value, challenge.value);
    if config.setting.closes(response) && challenge.value.Some? {
      return Err(ConnectionClosedDuringAuth), made;
    }
    r := Ok((scheme.value, context.value, challenge.value));
  }

  /** The trace and the streams after the closed probe has been replaced by a new connection. */
  lemma Reconnected(head: ResponseHead, origin: Bytes, again: Bytes, config: Config)
    requires Aligned(Probed(head), [origin], config.Reads())
    ensures Aligned(Then(Probed(head), Dialed(1)), [origin, again], config.Reads())
    ensures SentOn(Then(Probed(head), Dialed(1)), 1, config.request) == []
    ensures Dials(Then(Probed(head), Dialed(1))) == 2 && StepLog(Then(Probed(head), Dialed(1))) == []
    ensures SentOn(Then(Probed(head), Dialed(1)), 0, config.request) == SentOn(Probed(head), 0, config.request)
    ensures StepLog(Probed(head)) == [] && Began(Probed(head), head) && Began(Then(Probed(head), Dialed(1)), head)
  {
    AlignedGrows(Probed(head), [origin], again, config.Reads());
    assert [origin] + [again] == [origin, again];
    ProbeCounts(head, config.setting);
    OneMore(Probed(head), Dialed(1), 1);
    var t1 := Then(Start, Dialed(0));
    var t2 := Then(t1, Asked(0, None));
    assert SentOn(t1, 1, config.request) == [];
    assert SentOn(t2, 1, config.request) == [];
    assert SentOn(Probed(head), 1, config.request) == [];
  }

  /** The new connection could not be opened, or not be configured. */
  lemma NotReconnected(response: ResponseHead, scheme: AuthScheme, challenge: Option<Bytes>, e: ProxyError,
                       dialled: bool, probe: Bytes, again: Bytes, config: Config)
    requires Aligned(Probed(response), [probe], config.Reads())
    requires Ready(Then(Probed(response), Dialed(1)), config.setting, 1, 0, scheme, response, challenge, false)
    requires e == IoError || e == ConnectTimeout
    ensures !dialled ==> Explained(Some(e), Probed(response), [probe], config)
    ensures dialled ==> Explained(Some(e), Then(Probed(response), Dialed(1)), [probe, again], config)
  {
    ProbeCounts(response, config.setting);
    Reconnected(response, probe, again, config);
  }

  /** Authenticates on a new connection that has replaced the closed probe. */
  method StartOver(config: Config, upstream: BufferedStream, ghost probe: Bytes, ghost start: Trace,
                   response: ResponseHead, scheme: AuthScheme, context: AuthContext, challenge: Option<Bytes>)
      returns (r: Result<(), ProxyError>, ghost t: Trace)
    requires upstream.Valid() && upstream.position == 0 && upstream.buffer == []
    requires upstream.stream.outgoing == [] == SentOn(start, 1, config.request) && !upstream.stream.failed
    requires Aligned(start, [probe, upstream.origin], config.Reads())
    requires Ready(start, config.setting, 1, 0, scheme, response, challenge, false)
    requires context.log == [] == StepLog(start)
    modifies upstream, upstream.stream, context
    ensures context.log == StepLog(t) && Began(t, response)
    ensures SentOn(t, 0, config.request) == SentOn(start, 0, config.request)
    ensures upstream.stream.outgoing <= SentOn(t, 1, config.request)
    ensures Accounted(if r.Ok? then None else Some(r.error), false, upstream.stream.failed)
    ensures Explained(if r.Ok? then None else Some(r.error), t, [probe, upstream.origin], config)
    ensures r.Ok? ==> Ready200(upstream, t, [probe, upstream.origin], config)
  {
    r, t := Authenticate(config, upstream, context, scheme, response, challenge, false,
                         Task(config, scheme, start, response, 1, [probe, upstream.origin]));
  }

  /** The probe was closed and its challenge has no token: authenticate on a new connection. */
  method Restart(config: Config, net: Network, ghost probe: Bytes, response: ResponseHead,
                 scheme: AuthScheme, context: AuthContext, challenge: Option<Bytes>)
      returns (r: Result<BufferedStream, ProxyError>, ghost t: Trace, ghost dialled: Option<TcpStream>)
    requires Aligned(Probed(response), [probe], config.Reads())
    requires Ready(Then(Probed(response), Dialed(1)), config.setting, 1, 0, scheme, response, challenge, false)
    requires context.log == []
    modifies net, context
    ensures net.attempts == old(net.attempts) + [UpstreamProxy]
    ensures context.log == StepLog(t) && Began(t, response)
    ensures SentOn(t, 0, config.request) == SentOn(Probed(response), 0, config.request)
    ensures dialled.None? ==>
              && r.Err? && r.error in {IoError, ConnectTimeout} && net.sockets == old(net.sockets)
              && Explained(Some(r.error), t, [probe], config)
    ensures dialled.Some? ==>
              && net.sockets == old(net.sockets) + [dialled.value]
              && fresh(dialled.value) && dialled.value.peer == Some(UpstreamProxy)
              && dialled.value.outgoing <= SentOn(t, 1, config.request)
              && Accounted(if r.Ok? then None else Some(r.error), false, dialled.value.failed)
              && Explained(if r.Ok? then None else Some(r.error), t, [probe, dialled.value.origin], config)
    ensures r.Ok? ==> fresh(r.value) && dialled == Some(r.value.stream)
                      && Ready200(r.value, t, [probe, r.value.stream.origin], config)
  {
    t := Probed(response);
    var again;
    again, dialled := ConnectUpstream(net);
    ghost var delivers := if dialled.Some? then dialled.value.origin else [];
    Reconnected(response, probe, delivers, config);
    if dialled.Some? {
      t := Then(t, Dialed(1));
    }
    if again.Err? {
      NotReconnected(response, scheme, challenge, again.error, dialled.Some?, probe, delivers, config);
      return Err(again.error), t, dialled;
    }
    var authenticated;
    authenticated, t := StartOver(config, again.value, probe, t, response, scheme, context, challenge);
    r := if authenticated.Ok? then Ok(again.value) else Err(authenticated.error);
  }

  /** The probe stays open: authenticate on it. */
  method Continue(config: Config, probe: BufferedStream, response: ResponseHead,
                  scheme: AuthScheme, context: AuthContext, challenge: Option<Bytes>)
      returns (r: Result<BufferedStream, ProxyError>, ghost t: Trace)
    requires probe.Valid() && |probe.buffer| <= config.Cap() && !probe.stream.failed
    requires Aligned(Probed(response), [probe.origin], config.Reads())
    requires At(probe.origin, probe.Logical(), Probed(response), 0, config.Reads())
    requires probe.stream.outgoing == SentOn(Probed(response), 0, config.request)
    requires Ready(Probed(response), config.setting, 0, 0, scheme, response, challenge, true)
    requires !config.setting.closes(response) && context.log == []
    modifies probe, probe.stream, context
    ensures context.log == StepLog(t) && Began(t, response)
    ensures probe.stream.outgoing <= SentOn(t, 0, config.request)
    ensures Accounted(if r.Ok? then None else Some(r.error), false, probe.stream.failed)
    ensures Explained(if r.Ok? then None else Some(r.error), t, [probe.origin], config)
    ensures r.Ok? ==> r.value == probe && Ready200(probe, t, [probe.origin], config)
  {
    ProbeCounts(response, config.setting);
    var authenticated;
    authenticated, t := Authenticate(config, probe, context, scheme, response, challenge, true,
                                     Task(config, scheme, Probed(response), response, 0, [probe.origin]));
    r := if authenticated.Ok? then Ok(probe) else Err(authenticated.error);
  }

  /** A run that ends with its first response. */
  lemma Granted(head: ResponseHead, origin: Bytes, rest: Bytes, outgoing: Bytes, config: Config)
    requires ConnectSuccess(head) && Aligned(Probed(head), [origin], config.Reads())
    requires At(origin, rest, Probed(head), 0, config.Reads()) && outgoing == SentOn(Probed(head), 0, config.request)
    ensures Explained(None, Probed(head), [origin], config) && StepLog(Probed(head)) == []
    ensures WantedIn(Probed(head), config) == [] && Dials(Probed(head)) == 1
    ensures Handed(origin, rest, outgoing, Probed(head), [origin], config)
  {
    ProbeCounts(head, config.setting);
  }

  /** From the first response on. */
  method Negotiate(config: Config, net: Network, factory: AuthFactory, probe: BufferedStream, response: ResponseHead)
      returns (r: Result<BufferedStream, ProxyError>, ghost t: Trace, ghost second: Option<TcpStream>,
               ghost made: Option<AuthContext>)
    requires probe.Valid() && |probe.buffer| <= config.Cap() && probe.origin == probe.stream.origin
    requires Aligned(Probed(response), [probe.origin], config.Reads())
    requires At(probe.origin, probe.Logical(), Probed(response), 0, config.Reads())
    requires probe.stream.outgoing == SentOn(Probed(response), 0, config.request)
    requires !probe.stream.failed
    modifies net, factory, probe, probe.stream
    ensures net.attempts == old(net.attempts) || net.attempts == old(net.attempts) + [UpstreamProxy]
    ensures second.Some? ==> net.attempts == old(net.attempts) + [UpstreamProxy]
    ensures factory.requests == old(factory.requests) + Wanted(response, config) && Began(t, response)
    ensures Made(made, old(factory.contexts), factory.contexts, t, config.setting) && (made.Some? ==> fresh(made.value))
    ensures probe.stream.outgoing <= SentOn(t, 0, config.request)
    ensures second.None? ==>
              && net.sockets == old(net.sockets)
              && Accounted(if r.Ok? then None else Some(r.error), net.attempts != old(net.attempts),
                           probe.stream.failed)
              && Explained(if r.Ok? then None else Some(r.error), t, [probe.origin], config)
              && (r.Ok? ==> r.value == probe && Ready200(probe, t, [probe.origin], config))
    ensures second.Some? ==>
              && net.sockets == old(net.sockets) + [second.value]
              && fresh(second.value) && second.value.peer == Some(UpstreamProxy) && !probe.stream.failed
              && second.value.outgoing <= SentOn(t, 1, config.request)
              && Accounted(if r.Ok? then None else Some(r.error), false, second.value.failed)
              && Explained(if r.Ok? then None else Some(r.error), t, [probe.origin, second.value.origin], config)
              && (r.Ok? ==> fresh(r.value) && r.value.stream == second.value
                            && Ready200(r.value, t, [probe.origin, second.value.origin], config))
  {
    t, second, made := Probed(response), None, None;
    ProbeCounts(response, config.setting);
    if ConnectSuccess(response) {
      Granted(response, probe.origin, probe.Logical(), probe.stream.outgoing, config);
      return Ok(probe), t, second, made;
    }
    var considered;
    considered, made := Consider(config, factory, response);
    if considered.Err? {
      return Err(considered.error), t, second, made;
    }
    var (scheme, context, challenge) := considered.value;
    if config.setting.closes(response) {
      r, t, second := Restart(config, net, probe.origin, response, scheme, context, challenge);
    } else {
      r, t := Continue(config, probe, response, scheme, context, challenge);
    }
    SameScheme(Probed(response), t, config.setting);
  }

  /** What the sockets deliver. */
  ghost function Delivered(sockets: seq<TcpStream>): (r: seq<Bytes>)
    ensures |r| == |sockets| && forall i | 0 <= i < |r| :: r[i] == sockets[i].origin
  {
    seq(|sockets|, i requires 0 <= i < |sockets| => sockets[i].origin)
  }

  lemma DeliveredByOneOrTwo(a: TcpStream, b: TcpStream)
    ensures Delivered([a]) == [a.origin] && Delivered([a, b]) == [a.origin, b.origin]
  {
  }

  lemma AppendTwo<T>(s: seq<T>, a: T, b: T)
    ensures s + [a] + [b] == s + [a, b]
  {
  }

  /** A run without any connection. */
  lemma Unconnected(e: ProxyError, config: Config)
    requires e == IoError || e == ConnectTimeout
    ensures Explained(Some(e), Start, [], config) && Heads(Start) == [] && StepLog(Start) == [] && Dials(Start) == 0
  {
  }

  /** The whole handshake. Everything it does is in the trace: the sockets it opens, the bytes it writes
      to them, the security context it asks for and the steps of it; and the trace obeys the rules. */
  method EstablishUpstreamTunnel(config: Config, net: Network, factory: AuthFactory)
      returns (r: Result<BufferedStream, ProxyError>, ghost t: Trace, ghost dialled: seq<TcpStream>,
               ghost made: Option<AuthContext>)
    modifies net, factory
    ensures OnlyUpstream(old(net.attempts), net.attempts)
    ensures net.sockets == old(net.sockets) + dialled && |dialled| == Dials(t)
    ensures forall i | 0 <= i < |dialled| ::
              && fresh(dialled[i]) && dialled[i].peer == Some(UpstreamProxy)
              && dialled[i].outgoing <= SentOn(t, i, config.request)
              && (i + 1 < |dialled| ==> !dialled[i].failed)
    ensures |old(net.attempts)| + |dialled| <= |net.attempts| <= |old(net.attempts)| + |dialled| + 1
    ensures Accounted(if r.Ok? then None else Some(r.error),
                      |net.attempts| > |old(net.attempts)| + |dialled|,
                      dialled != [] && dialled[|dialled| - 1].failed)
    ensures factory.requests == old(factory.requests) + WantedIn(t, config)
    ensures Made(made, old(factory.contexts), factory.contexts, t, config.setting) && (made.Some? ==> fresh(made.value))
    ensures Explained(if r.Ok? then None else Some(r.error), t, Delivered(dialled), config)
    ensures r.Ok? ==> dialled != [] && r.value.stream == dialled[|dialled| - 1] && fresh(r.value)
                      && Ready200(r.value, t, Delivered(dialled), config)
  {
    dialled, made := [], None;
    UpstreamOnceOrTwice(net.attempts);
    var probe;
    ghost var first;
    probe, t, first := Probe(config, net);
    if first.Some? {
      dialled := [first.value];
      DeliveredByOneOrTwo(first.value, first.value);
    }
    if probe.Err? {
      if first.None? {
        Unconnected(probe.error, config);
        assert Delivered([]) == [];
      }
      return Err(probe.error), t, dialled, made;
    }
    var (upstream, response) := probe.value;
    ghost var second;
    r, t, second, made := Negotiate(config, net, factory, upstream, response);
    if second.Some? {
      dialled := [first.value, second.value];
      DeliveredByOneOrTwo(first.value, second.value);
      AppendTwo(old(net.sockets), first.value, second.value);
    }
  }
}
