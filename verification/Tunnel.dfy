/** One client connection from its request to the end of its tunnel (`handle_client` and
    `establish_tunnel` of `src/server.rs`, `relay_bidirectional` of `src/relay.rs`). */
module Tunnel {
  import opened Wire
  import opened Endpoints
  import Cidr
  import opened Routing
  import opened Messages
  import opened Challenges
  import opened Framing
  import opened Responses
  import opened Requests
  import opened Sockets
  import opened Http1
  import opened Protocol
  import opened Handshake
  import Relay

  datatype RoutingMode = AutoRouting | ProxyOnly

  /** The settings of the proxy, with the library functions it relies on: the two head parsers and the
      base64 codec. */
  datatype ProxyConfig = ProxyConfig(
    auth: AuthMode,
    routing: RoutingMode,
    directCidrs: seq<Cidr.Network>,
    idleTimeout: Option<nat>,
    maxHeaderBytes: nat,
    parseRequest: RequestParser,
    parseResponse: ResponseParser,
    encode: Bytes -> Bytes,
    decode: Bytes -> Option<Bytes>)
  {
    /** The handshake for a destination. */
    function Upstream(destination: Endpoint): Config {
      Config(maxHeaderBytes, parseResponse, auth, Standard(auth, encode, decode),
             (authorization: Option<Bytes>) => ConnectRequest(destination, authorization))
    }
  }

  // ---------------------------------------------------------------------------------------------
  // The outside world

  /** What the network and the factory of security contexts have seen so far. */
  datatype World = World(attempts: seq<Target>, sockets: seq<TcpStream>,
                         requests: seq<AuthScheme>, contexts: seq<AuthContext>)

  ghost function Seen(net: Network, factory: AuthFactory): World
    reads net, factory
  {
    World(net.attempts, net.sockets, factory.requests, factory.contexts)
  }

  /** The connections opened in between. */
  ghost function Opened(before: World, after: World): seq<TcpStream>
    requires before.sockets <= after.sockets
  {
    after.sockets[|before.sockets|..]
  }

  /** The connection opened last, if any was opened in between. */
  ghost function Newest(before: World, after: World): Option<TcpStream> {
    if |before.sockets| < |after.sockets| then Some(after.sockets[|after.sockets| - 1]) else None
  }

  /** What the system resolver answers: any addresses, or none if it fails or takes too long. */
  type Resolver = Endpoint -> Option<seq<SocketAddr>>

  // ---------------------------------------------------------------------------------------------
  // Routing

  /** All attempts since then were made to these addresses, in their order, and no further than needed. */
  ghost predicate TriedInOrder(before: seq<Target>, after: seq<Target>, addresses: seq<SocketAddr>) {
    && before <= after && |after| <= |before| + |addresses|
    && forall i | |before| <= i < |after| :: after[i] == Address(addresses[i - |before|])
  }

  /** `connect_direct`: tries the addresses in order until one accepts or the time is over. */
  method ConnectDirect(addresses: seq<SocketAddr>, net: Network)
      returns (r: Result<BufferedStream, ProxyError>, ghost dialled: Option<TcpStream>)
    modifies net
    ensures TriedInOrder(old(net.attempts), net.attempts, addresses)
    ensures dialled.None? ==> net.sockets == old(net.sockets) && r.Err?
    ensures dialled.None? ==>
              || r.error == DirectConnectTimeout
              || (r.error == IoError && |net.attempts| == |old(net.attempts)| + |addresses|)
    ensures dialled.Some? ==>
              && net.sockets == old(net.sockets) + [dialled.value] && |net.attempts| > |old(net.attempts)|
              && fresh(dialled.value) && dialled.value.peer == Some(net.attempts[|net.attempts| - 1])
              && dialled.value.outgoing == [] && (dialled.value.failed <==> r.Err?) && (r.Err? ==> r.error == IoError)
    ensures r.Ok? ==>
              && dialled == Some(r.value.stream) && fresh(r.value) && r.value.Valid()
              && r.value.origin == r.value.stream.origin && r.value.position == 0
  {
    dialled := None;
    var i := 0;
    while i < |addresses|
      invariant 0 <= i <= |addresses|
      invariant TriedInOrder(old(net.attempts), net.attempts, addresses)
      invariant |net.attempts| == |old(net.attempts)| + i && net.sockets == old(net.sockets)
    {
      if * {
        return Err(DirectConnectTimeout), dialled;
      }
      var connected := net.Connect(Address(addresses[i]));
      if connected.Some? {
        r, dialled := Configure(connected.value);
        return;
      }
      i := i + 1;
    }
    if * {
      return Err(DirectConnectTimeout), dialled;
    }
    r := Err(IoError);
  }

  /** Prepares a connection that has just been opened. */
  method Configure(stream: TcpStream) returns (r: Result<BufferedStream, ProxyError>, ghost dialled: Option<TcpStream>)
    modifies stream`failed
    ensures dialled == Some(stream) && (stream.failed <==> old(stream.failed) || r.Err?)
    ensures r.Err? ==> r.error == IoError
    ensures r.Ok? ==> fresh(r.value) && r.value.stream == stream && r.value.Valid()
                      && r.value.origin == stream.incoming && r.value.position == 0
  {
    dialled := Some(stream);
    var configured := stream.SetNodelay();
    if !configured {
      return Err(IoError), dialled;
    }
    var b := new BufferedStream(stream);
    r := Ok(b);
  }

  /** How a tunnel is reached: directly at one of these addresses, or by this handshake with this security
      context. */
  datatype Route = Direct(addresses: seq<SocketAddr>) | Upstream(trace: Trace, context: Option<AuthContext>)

  /** Whether the destination resolves to an address that is reached directly. */
  ghost predicate ReachedDirectly(config: ProxyConfig, destination: Endpoint, resolve: Resolver) {
    && config.routing == AutoRouting && resolve(destination).Some?
    && exists x | x in resolve(destination).value :: DirectAddress(x.ip, config.directCidrs)
  }

  /** What a direct route does: the addresses are tried in order, and at most one connection is opened, to the
      address tried last. */
  ghost predicate DialledDirect(addresses: seq<SocketAddr>, before: World, after: World) {
    && TriedInOrder(before.attempts, after.attempts, addresses)
    && before.sockets <= after.sockets && |after.sockets| <= |before.sockets| + 1
    && (|after.sockets| > |before.sockets| ==>
          && |after.attempts| > |before.attempts|
          && after.sockets[|before.sockets|].peer == Some(after.attempts[|after.attempts| - 1]))
    && after.requests == before.requests && after.contexts == before.contexts
  }

  /** What a route through the upstream proxy does: only the proxy is dialled, and the connections are those of
      the trace. */
  ghost predicate DialledUpstream(t: Trace, before: World, after: World) {
    && OnlyUpstream(before.attempts, after.attempts)
    && before.sockets <= after.sockets && |after.sockets| == |before.sockets| + Dials(t)
    && forall i | |before.sockets| <= i < |after.sockets| :: after.sockets[i].peer == Some(UpstreamProxy)
  }

  /** The route taken is the one the destination calls for, and all that was dialled is part of it. */
  ghost predicate Routed(route: Route, config: ProxyConfig, destination: Endpoint, resolve: Resolver,
                         before: World, after: World) {
    && (route.Direct? <==> ReachedDirectly(config, destination, resolve))
    && match route
       case Upstream(t, _) => DialledUpstream(t, before, after)
       case Direct(addresses) =>
         && resolve(destination).Some? && DirectList(addresses, resolve(destination).value, config.directCidrs)
         && DialledDirect(addresses, before, after)
  }

  /** No address is ever dialled that is neither the upstream proxy nor direct; in proxy-only mode only the
      upstream proxy is. */
  lemma OnlyDirectAddresses(route: Route, config: ProxyConfig, destination: Endpoint, resolve: Resolver,
                            before: World, after: World)
    requires Routed(route, config, destination, resolve, before, after)
    ensures forall i | |before.attempts| <= i < |after.attempts| ::
              after.attempts[i].Address? ==>
                DirectAddress(after.attempts[i].address.ip, config.directCidrs) && config.routing == AutoRouting
    ensures config.routing == ProxyOnly ==> OnlyUpstream(before.attempts, after.attempts)
  {
    forall i | |before.attempts| <= i < |after.attempts| && after.attempts[i].Address?
      ensures DirectAddress(after.attempts[i].address.ip, config.directCidrs) && config.routing == AutoRouting
    {
      assert route.addresses[i - |before.attempts|] in route.addresses;
    }
  }

  /** The security contexts a route asks for: none when direct, otherwise the one of the handshake, which is
      asked exactly what the trace says. */
  ghost predicate Authenticated(route: Route, config: Config, before: World, after: World)
    reads if route.Upstream? && route.context.Some? then {route.context.value} else {}
  {
    match route
    case Direct(_) => after.requests == before.requests && after.contexts == before.contexts
    case Upstream(t, context) =>
      && after.requests == before.requests + WantedIn(t, config)
      && Made(context, before.contexts, after.contexts, t, config.setting)
  }

  /** A handshake of the proxy runs with the settings of the proxy: its mode decides which schemes are permitted, its
      limit how long a head can be, and its requests are those for the destination. */
  lemma UpstreamRun(config: ProxyConfig, destination: Endpoint, t: Trace, origins: seq<Bytes>, e: Option<ProxyError>)
    requires Explained(e, t, origins, config.Upstream(destination))
    ensures Lawful(t, Standard(config.auth, config.encode, config.decode))
    ensures Aligned(t, origins, Capped(config.parseResponse, Max(config.maxHeaderBytes, 1023)))
    ensures Steps(t) > 0 ==>
              var scheme := SchemeOf(t, config.Upstream(destination).setting);
              scheme.Some? && Permits(config.auth, scheme.value) && Offers(Heads(t)[0], scheme.value)
    ensures e == Some(ProxyError.AuthenticationRequired) ==>
              Heads(t) != [] && Heads(t)[|Heads(t)| - 1].status == 407 && config.auth == NoAuth
    ensures config.auth == NoAuth ==> Steps(t) == 0
    ensures forall authorization ::
              config.Upstream(destination).request(authorization) == ConnectRequest(destination, authorization)
  {
    if Steps(t) > 0 {
      KthStepReadsKthResponse(t, config.Upstream(destination).setting, 0);
      SchemeOfRun(t, config.auth, config.encode, config.decode);
    }
  }

  /** The last response of a run and its scheme. */
  ghost function LastHead(t: Trace): ResponseHead
    requires Heads(t) != []
  {
    Heads(t)[|Heads(t)| - 1]
  }

  /** A scheme is reported missing only for a 407 that does not offer it, or if the first offers nothing permitted. */
  lemma SchemeMissingOnly(config: ProxyConfig, destination: Endpoint, t: Trace, origins: seq<Bytes>)
    requires Explained(Some(AuthenticationSchemeMissing), t, origins, config.Upstream(destination))
    ensures Heads(t) != [] && LastHead(t).status == 407
    ensures var scheme := SchemeOf(t, config.Upstream(destination).setting);
            if scheme.Some? then !Offers(LastHead(t), scheme.value)
            else forall s :: Permits(config.auth, s) ==> !Offers(Heads(t)[0], s)
  {
    MissingMeans(t, LastHead(t), config.auth, config.encode, config.decode);
  }

  /** A token is reported invalid only for a 407 whose first item of the scheme has one that cannot be decoded. */
  lemma TokenInvalidOnly(config: ProxyConfig, destination: Endpoint, t: Trace, origins: seq<Bytes>)
    requires Explained(Some(InvalidAuthenticationToken), t, origins, config.Upstream(destination))
    ensures Heads(t) != [] && LastHead(t).status == 407
    ensures var scheme := SchemeOf(t, config.Upstream(destination).setting);
            scheme.Some? && FirstItemGarbled(LastHead(t), scheme.value, config.decode)
  {
    TokenInMeaning(LastHead(t), SchemeOf(t, config.Upstream(destination).setting).value, config.decode, None);
  }

  /** A closed connection is reported only for a 407 that announces it. */
  lemma ClosedOnly(config: ProxyConfig, destination: Endpoint, t: Trace, origins: seq<Bytes>)
    requires Explained(Some(ConnectionClosedDuringAuth), t, origins, config.Upstream(destination))
    ensures Heads(t) != [] && LastHead(t).status == 407 && AnnouncesClose(LastHead(t))
  {
    ClosesMeaning(LastHead(t), config.auth, config.encode, config.decode);
  }

  /** Why there is no tunnel. `broken` says whether the newest connection has failed. */
  ghost predicate Excused(e: ProxyError, route: Route, config: Config, before: World, after: World, broken: bool)
    requires before.sockets <= after.sockets
  {
    match route
    case Direct(addresses) =>
      if Newest(before, after).Some? then e == IoError && broken
      else e == DirectConnectTimeout || (e == IoError && |after.attempts| == |before.attempts| + |addresses|)
    case Upstream(t, _) =>
      && Explained(Some(e), t, Delivered(Opened(before, after)), config)
      && Accounted(Some(e), |after.attempts| > |before.attempts| + Dials(t), broken)
  }

  /** Where a tunnel begins: at the first byte of a direct connection, or right behind the 2xx head on the
      connection of the handshake, to which exactly the requests of the trace were written. */
  ghost predicate Begins(rest: Bytes, written: Bytes, route: Route, config: Config, before: World, after: World)
    requires before.sockets <= after.sockets
  {
    match route
    case Direct(_) => Newest(before, after).Some? && rest == Newest(before, after).value.origin && written == []
    case Upstream(t, _) =>
      && Newest(before, after).Some?
      && Explained(None, t, Delivered(Opened(before, after)), config)
      && Handed(Newest(before, after).value.origin, rest, written, t, Delivered(Opened(before, after)), config)
  }

  /** What is known once a connection for a tunnel has been opened, or could not be. */
  ghost predicate Tried(r: Result<BufferedStream, ProxyError>, route: Route, config: Config,
                        before: World, after: World)
    reads if r.Ok? then {r.value, r.value.stream} else {}
    reads if Newest(before, after).Some? then {Newest(before, after).value} else {}
  {
    && before.sockets <= after.sockets
    && var newest := Newest(before, after);
       match r
       case Ok(b) =>
         && b.Valid() && !b.stream.failed && newest == Some(b.stream)
         && Begins(b.Logical(), b.stream.outgoing, route, config, before, after)
       case Err(e) => Excused(e, route, config, before, after, newest.Some? && newest.value.failed)
  }

  /** `establish_tunnel`, with the settings for a handshake. */
  method EstablishTunnel(config: ProxyConfig, handshake: Config, destination: Endpoint, net: Network,
                         factory: AuthFactory, resolve: Resolver, ghost before: World)
      returns (r: Result<BufferedStream, ProxyError>, ghost route: Route, ghost after: World)
    requires before == Seen(net, factory)
    modifies net, factory
    ensures after == Seen(net, factory)
    ensures Newest(before, after).Some? ==> fresh(Newest(before, after).value)
    ensures route.Upstream? && route.context.Some? ==> fresh(route.context.value)
    ensures Routed(route, config, destination, resolve, before, after)
    ensures Authenticated(route, handshake, before, after)
    ensures Tried(r, route, handshake, before, after) && (r.Ok? ==> fresh(r.value))
  {
    if config.routing == AutoRouting {
      var resolved := resolve(destination);
      if resolved.Some? {
        var kept := KeepDirect(resolved.value, config.directCidrs);
        if kept.Some? {
          r, after := EstablishDirectly(handshake, kept.value, net, factory, before);
          route := Direct(kept.value);
          return;
        }
      }
    }
    r, route, after := EstablishByHandshake(handshake, net, factory, before);
  }

  /** A direct connection, as a route. */
  method EstablishDirectly(ghost config: Config, addresses: seq<SocketAddr>, net: Network, ghost factory: AuthFactory,
                           ghost before: World)
      returns (r: Result<BufferedStream, ProxyError>, ghost after: World)
    requires before == Seen(net, factory)
    modifies net
    ensures after == Seen(net, factory)
    ensures Newest(before, after).Some? ==> fresh(Newest(before, after).value)
    ensures DialledDirect(addresses, before, after)
    ensures Tried(r, Direct(addresses), config, before, after) && (r.Ok? ==> fresh(r.value))
  {
    ghost var dialled;
    r, dialled := ConnectDirect(addresses, net);
    after := Seen(net, factory);
  }

  /** The handshake, as a route. */
  method EstablishByHandshake(config: Config, net: Network, factory: AuthFactory, ghost before: World)
      returns (r: Result<BufferedStream, ProxyError>, ghost route: Route, ghost after: World)
    requires before == Seen(net, factory)
    modifies net, factory
    ensures after == Seen(net, factory) && route.Upstream?
    ensures Newest(before, after).Some? ==> fresh(Newest(before, after).value)
    ensures route.context.Some? ==> fresh(route.context.value)
    ensures DialledUpstream(route.trace, before, after)
    ensures Authenticated(route, config, before, after)
    ensures Tried(r, route, config, before, after) && (r.Ok? ==> fresh(r.value))
  {
    ghost var t, dialled, made;
    r, t, dialled, made := EstablishUpstreamTunnel(config, net, factory);
    route, after := Upstream(t, made), Seen(net, factory);
    HandshakeDialled(t, dialled, before, after);
  }

  /** The sockets of a handshake are those opened in between, and the last of them is the newest. */
  lemma HandshakeDialled(t: Trace, dialled: seq<TcpStream>, before: World, after: World)
    requires after.sockets == before.sockets + dialled && |dialled| == Dials(t)
    requires OnlyUpstream(before.attempts, after.attempts)
    requires forall i | 0 <= i < |dialled| :: dialled[i].peer == Some(UpstreamProxy)
    ensures DialledUpstream(t, before, after) && Opened(before, after) == dialled
    ensures Newest(before, after) == if dialled == [] then None else Some(dialled[|dialled| - 1])
  {
  }

  // ---------------------------------------------------------------------------------------------
  // The relay on the two sockets

  /** Some interleaving of the relay, cut off after some number of moves: `None` if it is still running
      then. Every byte goes through the sockets as the state machine says. */
  method RelayBidirectional(client: TcpStream, upstream: TcpStream, idleTimeout: Option<nat>, start: nat)
      returns (outcome: Option<Relay.Outcome>, ghost moves: seq<Relay.Move>, ghost final: Relay.State)
    requires client != upstream && !client.failed && !upstream.failed
    modifies client, upstream
    ensures Relay.Reached(old(client.incoming), old(upstream.incoming), start, idleTimeout, moves, final)
    ensures outcome == final.outcome
    ensures upstream.outgoing == old(upstream.outgoing) + final.up.delivered
    ensures client.outgoing == old(client.outgoing) + final.down.delivered
    ensures client.incoming == final.up.unread && upstream.incoming == final.down.unread
    ensures client.failed || upstream.failed <==> Relay.AnyFailed(final)
  {
    ghost var c, u := client.incoming, upstream.incoming;
    var toClient, toUpstream := client.outgoing, upstream.outgoing;
    var state := Relay.Init(client.incoming, upstream.incoming, start);
    moves := [];
    var steps: nat :| 0 <= steps;
    for i := 0 to steps
      invariant Relay.Reached(c, u, start, idleTimeout, moves, state)
      invariant upstream.outgoing == toUpstream + state.up.delivered
      invariant client.outgoing == toClient + state.down.delivered
      invariant client.incoming == state.up.unread && upstream.incoming == state.down.unread
      invariant client.failed || upstream.failed <==> Relay.AnyFailed(state)
    {
      var move: Relay.Move := *;
      var next := Relay.Step(state, move, idleTimeout);
      if next.Some? {
        Relay.FailsOnFault(state, move, idleTimeout);
        assert (moves + [move])[..|moves|] == moves;
        moves := moves + [move];
        state := next.value;
        client.incoming, upstream.outgoing := state.up.unread, toUpstream + state.up.delivered;
        upstream.incoming, client.outgoing := state.down.unread, toClient + state.down.delivered;
        client.failed := client.failed || Relay.ClientFault(move);
        upstream.failed := upstream.failed || Relay.UpstreamFault(move);
      }
    }
    outcome, final := state.outcome, state;
  }

  // ---------------------------------------------------------------------------------------------
  // The client connection

  function Established200(): Bytes { Ascii("HTTP/1.1 200 Connection Established") + CRLFCRLF }

  function RefusalBody(status: nat, reason: Bytes): Bytes { Print(status, 10) + [32] + reason + [LF] }

  /** The response of `send_error`. */
  function ErrorResponse(status: nat, reason: Bytes): Bytes {
    var body := RefusalBody(status, reason);
    Ascii("HTTP/1.1 ") + Print(status, 10) + [32] + reason + CRLF
    + Ascii("Connection: close") + CRLF
    + Ascii("Content-Type: text/plain; charset=utf-8") + CRLF
    + Ascii("Content-Length: ") + Print(|body|, 10) + CRLFCRLF
    + body
  }

  datatype Ending =
    | BadRequest(error: HttpError)
    | NotConnect
    | InvalidTarget
    | NoTunnel(failure: ProxyError)
    | Disconnected
    | IdleTimeout
    | Closed(sent: nat, received: nat)
    | Running

  /** The response that refuses a client, by the way its connection ended. */
  function Refusal(e: Ending): Option<Bytes> {
    match e
    case BadRequest(_) => Some(ErrorResponse(400, Ascii("Bad Request")))
    case NotConnect => Some(ErrorResponse(405, Ascii("CONNECT Required")))
    case InvalidTarget => Some(ErrorResponse(400, Ascii("Invalid CONNECT Target")))
    case NoTunnel(_) => Some(ErrorResponse(502, Ascii("Bad Gateway")))
    case _ => None
  }

  /** `send_error`. */
  method Refuse(client: TcpStream, reason: Ending) returns (ending: Ending)
    requires Refusal(reason).Some?
    modifies client`outgoing, client`failed
    ensures ending == reason && old(client.outgoing) <= client.outgoing <= old(client.outgoing) + Refusal(reason).value
    ensures client.failed || client.outgoing == old(client.outgoing) + Refusal(reason).value
  {
    var _ := client.WriteAll(Refusal(reason).value);
    ending := reason;
  }

  /** An attempt to open a tunnel. */
  datatype Attempt = Attempt(destination: Endpoint, route: Route)

  /** An open tunnel: the connection it uses, what had been written to that connection before, what the
      connection delivers to the tunnel, how much of the 200 the client was sent, the bytes that had already
      been read from either side when the tunnel opened, the bytes it has carried in each direction, and the
      history of its relay if it came to that. */
  datatype Tunnelled = Tunnelled(
    socket: TcpStream, before: Bytes, stream: Bytes, told: Bytes, early: Bytes, late: Bytes, up: Bytes, down: Bytes,
    relay: Option<Relay.History>)

  /** How a relay ends. */
  predicate EndsAs(ending: Ending, outcome: Option<Relay.Outcome>) {
    match outcome
    case None => ending == Running
    case Some(IoFailure) => ending == Disconnected
    case Some(TimedOut) => ending == IdleTimeout
    case Some(Done(sent, received)) => ending == Closed(sent, received)
  }

  /** What was carried is what was read early and then what a relay has delivered, and that relay ended as the tunnel
      did; without a relay the early bytes could not be passed on. */
  ghost predicate Carried(relay: Option<Relay.History>, ending: Ending, early: Bytes, late: Bytes,
                          up: Bytes, down: Bytes, client: Bytes, socket: Bytes, idleTimeout: Option<nat>) {
    match relay
    case None => ending.Disconnected? && up <= early && down <= late
    case Some(h) =>
      && h.client == client && h.upstream == socket && h.timeout == idleTimeout && h.Happens()
      && var final := h.State(|h.moves|);
         EndsAs(ending, final.outcome) && up == early + final.up.delivered && down == late + final.down.delivered
  }

  /** The tunnel is transparent: it carries prefixes of what the client sends after its request head and
      of what the other side sends, and all of both when it closes in good order. */
  ghost predicate Transparent(x: Tunnelled, client: Bytes, ending: Ending) {
    && x.up <= client && x.early <= client
    && x.down <= x.stream && x.late <= x.stream
    && (ending.Closed? ==>
          && x.up == client && |x.early| + ending.sent == |client|
          && x.down == x.stream && |x.late| + ending.received == |x.stream|)
  }

  /** Carries an established tunnel: first what was read early on either side, then the relay. */
  method Carry(client: TcpStream, tunnel: BufferedStream, early: Bytes, idleTimeout: Option<nat>, start: nat)
      returns (ending: Ending, ghost up: Bytes, ghost down: Bytes, ghost relay: Option<Relay.History>)
    requires tunnel.Valid() && client != tunnel.stream && !client.failed && !tunnel.stream.failed
    modifies client, tunnel.stream
    ensures ending.Disconnected? || ending.IdleTimeout? || ending.Closed? || ending.Running?
    ensures !ending.Running? ==> (ending.Disconnected? <==> client.failed || tunnel.stream.failed)
    ensures Carried(relay, ending, early, tunnel.buffer, up, down,
                    old(client.incoming), old(tunnel.stream.incoming), idleTimeout)
    ensures tunnel.stream.outgoing == old(tunnel.stream.outgoing) + up
    ensures client.outgoing == old(client.outgoing) + down
    ensures up <= early + old(client.incoming) && down <= old(tunnel.Logical())
    ensures ending.Closed? ==>
              && up == early + old(client.incoming) && down == old(tunnel.Logical())
              && ending.sent == |old(client.incoming)| && ending.received == |old(tunnel.stream.incoming)|
  {
    ghost var toClient, toSocket := client.outgoing, tunnel.stream.outgoing;
    var socket, late := tunnel.IntoParts();
    ghost var fromClient, fromSocket := client.incoming, socket.incoming;
    if early != [] {
      var ok := socket.WriteAll(early);
      if !ok {
        up, down := socket.outgoing[|toSocket|..], [];
        WrittenPart(toSocket, early, fromClient, socket.outgoing);
        return Disconnected, up, down, None;
      }
    }
    if late != [] {
      var ok := client.WriteAll(late);
      if !ok {
        up, down := early, client.outgoing[|toClient|..];
        WrittenPart(toClient, late, fromSocket, client.outgoing);
        return Disconnected, up, down, None;
      }
    }
    ghost var relayedUp, relayedDown, h;
    ending, relayedUp, relayedDown, h := RelayToEnd(client, socket, idleTimeout, start);
    relay := Some(h);
    up, down := early + relayedUp, late + relayedDown;
    PrefixAfter(early, relayedUp, fromClient);
    PrefixAfter(late, relayedDown, fromSocket);
  }

  /** The relay, and how it ends. */
  method RelayToEnd(client: TcpStream, socket: TcpStream, idleTimeout: Option<nat>, start: nat)
      returns (ending: Ending, ghost up: Bytes, ghost down: Bytes, ghost h: Relay.History)
    requires client != socket && !client.failed && !socket.failed
    modifies client, socket
    ensures ending.Disconnected? || ending.IdleTimeout? || ending.Closed? || ending.Running?
    ensures !ending.Running? ==> (ending.Disconnected? <==> client.failed || socket.failed)
    ensures Carried(Some(h), ending, [], [], up, down, old(client.incoming), old(socket.incoming), idleTimeout)
    ensures socket.outgoing == old(socket.outgoing) + up && client.outgoing == old(client.outgoing) + down
    ensures up <= old(client.incoming) && down <= old(socket.incoming)
    ensures ending.Closed? ==>
              && up == old(client.incoming) && down == old(socket.incoming)
              && ending.sent == |up| && ending.received == |down|
  {
    ghost var fromClient, fromSocket := client.incoming, socket.incoming;
    ghost var moves, final;
    var outcome;
    outcome, moves, final := RelayBidirectional(client, socket, idleTimeout, start);
    Relay.DeliversPrefix(fromClient, fromSocket, start, idleTimeout, moves, final);
    up, down := final.up.delivered, final.down.delivered;
    h := Relay.History(fromClient, fromSocket, start, idleTimeout, moves);
    assert moves[..|moves|] == moves;
    assert [] + up == up && [] + down == down;
    if outcome.Some? {
      Relay.FailsOnlyByFault(fromClient, fromSocket, start, idleTimeout, moves, final);
    }
    match outcome
    case None => ending := Running;
    case Some(IoFailure) => ending := Disconnected;
    case Some(TimedOut) => ending := IdleTimeout;
    case Some(Done(sent, received)) => ending := Closed(sent, received);
  }

  lemma WrittenPart(before: Bytes, data: Bytes, more: Bytes, after: Bytes)
    requires before <= after <= before + data
    ensures after == before + after[|before|..] && after[|before|..] <= data + more
  {
    assert after[|before|..] == (before + data)[|before|..|after|];
  }

  lemma PrefixAfter(front: Bytes, part: Bytes, whole: Bytes)
    requires part <= whole
    ensures front + part <= front + whole
  {
  }

  /** The request a client stream starts with, if the reader and the parser accept it. */
  ghost function RequestIn(stream: Bytes, config: ProxyConfig): Option<RequestHead> {
    match HeadWithin(stream, config.maxHeaderBytes)
    case Err(_) => None
    case Ok(head) => config.parseRequest(head)
  }

  /** What a refusal before the tunnel says about the request. */
  ghost predicate Justified(e: Ending, stream: Bytes, config: ProxyConfig) {
    var request := RequestIn(stream, config);
    match e
    case BadRequest(error) =>
      var head := HeadWithin(stream, config.maxHeaderBytes);
      error != HttpError.Io ==> request.None? && error == if head.Err? then head.error else HttpError.Parse
    case NotConnect => request.Some? && !EqIgnoreCase(request.value.verb, Ascii("CONNECT"))
    case InvalidTarget =>
      && request.Some? && EqIgnoreCase(request.value.verb, Ascii("CONNECT"))
      && Endpoints.Parse(request.value.target).Err?
    case _ => false
  }

  /** The destination a client asks for. */
  ghost predicate AsksFor(stream: Bytes, config: ProxyConfig, destination: Endpoint) {
    var request := RequestIn(stream, config);
    && request.Some? && EqIgnoreCase(request.value.verb, Ascii("CONNECT"))
    && Endpoints.Parse(request.value.target) == Ok(destination)
  }

  /** Reads the request of a client: its destination and the bytes it sent early, or the reason to refuse. */
  method ReadDestination(config: ProxyConfig, client: TcpStream) returns (r: Result<(Endpoint, Bytes), Ending>)
    modifies client`incoming, client`failed
    ensures client.failed <==> old(client.failed) || r == Err(BadRequest(HttpError.Io))
    ensures r.Err? ==> Refusal(r.error).Some? && Justified(r.error, old(client.incoming), config)
    ensures r.Ok? ==>
              && AsksFor(old(client.incoming), config, r.value.0)
              && HeaderEnd(old(client.incoming)).Some?
              && r.value.1 + client.incoming == old(client.incoming)[HeaderEnd(old(client.incoming)).value..]
  {
    var request := ReadRequestHead(client, config.maxHeaderBytes, config.parseRequest);
    if request.Err? {
      return Err(BadRequest(request.error));
    }
    var (head, early) := request.value;
    assert RequestIn(old(client.incoming), config) == Some(head);
    if !EqIgnoreCase(head.verb, Ascii("CONNECT")) {
      return Err(NotConnect);
    }
    var destination := Endpoints.Parse(head.target);
    if destination.Err? {
      return Err(InvalidTarget);
    }
    r := Ok((destination.value, early));
  }

  /** What has passed the two sockets of a tunnel: the client was sent the 200 and what came down, and the
      other side what went up; a client that could not be told gets nothing else. */
  ghost predicate Passed(client: TcpStream, x: Tunnelled, sent: Bytes, ending: Ending)
    reads client, x.socket
  {
    && x.socket.outgoing == x.before + x.up && client.outgoing == sent + x.told + x.down
    && x.told <= Established200()
    && (x.told != Established200() ==> ending.Disconnected? && client.failed && x.up == [] && x.down == [])
    && (ending.Disconnected? ==> client.failed || x.socket.failed)
  }

  /** The relay of a tunnel carries what the client sends after the early bytes, and what the connection delivers
      after those that were read with the head. */
  ghost predicate Relayed(x: Tunnelled, rest: Bytes, ending: Ending, idleTimeout: Option<nat>) {
    && x.early <= rest && x.late <= x.stream
    && Carried(x.relay, ending, x.early, x.late, x.up, x.down, rest[|x.early|..], x.stream[|x.late|..], idleTimeout)
  }

  /** What an attempt to open a tunnel comes to: no tunnel for a reason, or a tunnel over the newest connection of
      the network that is transparent to what that connection delivers. `sent` is what the client had been
      sent before, and `rest` what it sends after its request head. */
  ghost predicate Concluded(client: TcpStream, sent: Bytes, a: Attempt, tunnel: Option<Tunnelled>, ending: Ending,
                            rest: Bytes, config: Config, idleTimeout: Option<nat>, before: World, after: World)
    requires before.sockets <= after.sockets
    reads client, if Newest(before, after).Some? then {Newest(before, after).value} else {}
  {
    var newest := Newest(before, after);
    match tunnel
    case None =>
      && ending.NoTunnel?
      && Excused(ending.failure, a.route, config, before, after, newest.Some? && newest.value.failed)
      && sent <= client.outgoing <= sent + Refusal(ending).value
      && (client.failed || client.outgoing == sent + Refusal(ending).value)
    case Some(x) =>
      && newest == Some(x.socket)
      && Begins(x.stream, x.before, a.route, config, before, after)
      && Transparent(x, rest, ending)
      && Relayed(x, rest, ending, idleTimeout)
      && Passed(client, x, sent, ending)
  }

  /** Answers the client and carries the tunnel. */
  method Serve(client: TcpStream, upstream: BufferedStream, early: Bytes, idleTimeout: Option<nat>, start: nat)
      returns (ending: Ending, ghost x: Tunnelled)
    requires upstream.Valid() && !client.failed && !upstream.stream.failed && client != upstream.stream
    modifies client, upstream.stream
    ensures x.socket == upstream.stream && x.early == early
    ensures x.before == old(upstream.stream.outgoing) && x.stream == old(upstream.Logical())
    ensures Transparent(x, early + old(client.incoming), ending)
    ensures Passed(client, x, old(client.outgoing), ending)
    ensures Relayed(x, early + old(client.incoming), ending, idleTimeout)
    ensures ending.Disconnected? || ending.IdleTimeout? || ending.Closed? || ending.Running?
  {
    ghost var sent, before := client.outgoing, upstream.stream.outgoing;
    ghost var stream, late := upstream.Logical(), upstream.buffer;
    assert stream == late + upstream.stream.incoming;
    var ok := client.WriteAll(Established200());
    ghost var told := client.outgoing[|sent|..];
    ghost var up: Bytes, down: Bytes, relay := [], [], None;
    WrittenPart(sent, Established200(), [], client.outgoing);
    ending := Disconnected;
    if ok {
      ending, up, down, relay := Carry(client, upstream, early, idleTimeout, start);
    }
    x := Tunnelled(upstream.stream, before, stream, told, early, late, up, down, relay);
    assert (early + old(client.incoming))[|early|..] == old(client.incoming);
    assert stream[|late|..] == old(upstream.stream.incoming);
  }

  /** Refuses the client, or answers it and carries the tunnel. */
  method Conclude(client: TcpStream, established: Result<BufferedStream, ProxyError>, early: Bytes,
                  idleTimeout: Option<nat>, start: nat,
                  ghost a: Attempt, ghost config: Config, ghost before: World, ghost after: World)
      returns (ending: Ending, ghost tunnel: Option<Tunnelled>)
    requires !client.failed && Newest(before, after) != Some(client)
    requires Tried(established, a.route, config, before, after)
    modifies client, if established.Ok? then {established.value.stream} else {}
    ensures Concluded(client, old(client.outgoing), a, tunnel, ending, early + old(client.incoming),
                      config, idleTimeout, before, after)
  {
    match established
    case Err(e) =>
      tunnel := None;
      ending := Refuse(client, NoTunnel(e));
    case Ok(upstream) =>
      ghost var x;
      ending, x := Serve(client, upstream, early, idleTimeout, start);
      tunnel := Some(x);
  }

  /** Opens the tunnel to a destination, answers the client and carries the tunnel. */
  method OpenTunnel(config: ProxyConfig, handshake: Config, client: TcpStream, net: Network, factory: AuthFactory,
                    resolve: Resolver, destination: Endpoint, early: Bytes, start: nat, ghost before: World)
      returns (ending: Ending, ghost a: Attempt, ghost tunnel: Option<Tunnelled>, ghost after: World)
    requires !client.failed && before == Seen(net, factory)
    modifies client, net, factory
    ensures a.destination == destination && after == Seen(net, factory) && before.sockets <= after.sockets
    ensures Routed(a.route, config, destination, resolve, before, after)
    ensures Authenticated(a.route, handshake, before, after)
    ensures Concluded(client, old(client.outgoing), a, tunnel, ending, early + old(client.incoming),
                      handshake, config.idleTimeout, before, after)
  {
    var established;
    ghost var route;
    established, route, after := EstablishTunnel(config, handshake, destination, net, factory, resolve, before);
    a := Attempt(destination, route);
    ending, tunnel :=
      Conclude(client, established, early, config.idleTimeout, start, a, handshake, before, after);
  }

  /** Reads a request, and refuses the client or opens its tunnel. */
  method AnswerClient(config: ProxyConfig, client: TcpStream, net: Network, factory: AuthFactory, resolve: Resolver,
                      start: nat)
      returns (ending: Ending, ghost attempt: Option<Attempt>, ghost tunnel: Option<Tunnelled>,
               ghost before: World, ghost after: World)
    requires !client.failed
    modifies client, net, factory
    ensures before == old(Seen(net, factory)) && after == Seen(net, factory) && before.sockets <= after.sockets
    ensures attempt.None? ==>
              && tunnel.None? && before == after
              && TurnedAway(client, old(client.outgoing), old(client.incoming), ending, config)
    ensures attempt.Some? ==>
              var a, end := attempt.value, HeaderEnd(old(client.incoming));
              && AsksFor(old(client.incoming), config, a.destination) && end.Some?
              && Routed(a.route, config, a.destination, resolve, before, after)
              && Authenticated(a.route, config.Upstream(a.destination), before, after)
              && Concluded(client, old(client.outgoing), a, tunnel, ending, old(client.incoming)[end.value..],
                           config.Upstream(a.destination), config.idleTimeout, before, after)
  {
    attempt, tunnel := None, None;
    before := Seen(net, factory);
    after := before;
    var configured := client.SetNodelay();
    if !configured {
      return Disconnected, attempt, tunnel, before, after;
    }
    var request := ReadDestination(config, client);
    match request
    case Err(reason) =>
      ending := Refuse(client, reason);
    case Ok((destination, early)) =>
      ghost var a;
      ending, a, tunnel, after := OpenTunnel(config, config.Upstream(destination), client, net, factory, resolve,
                                             destination, early, start, before);
      attempt := Some(a);
  }

  /** One client connection. A client that gets the 200 gets a transparent tunnel to the destination it
      asked for, over the connection the proxy has just opened for it; every other client gets at most the one
      response that refuses it. */
  method HandleClient(config: ProxyConfig, client: TcpStream, net: Network, factory: AuthFactory, resolve: Resolver,
                      start: nat)
      returns (ending: Ending, ghost attempt: Option<Attempt>, ghost tunnel: Option<Tunnelled>,
               ghost before: World, ghost after: World)
    requires !client.failed
    modifies client, net, factory
    ensures before == old(Seen(net, factory)) && after == Seen(net, factory) && before.sockets <= after.sockets
    ensures attempt.None? ==>
              && tunnel.None? && before == after
              && TurnedAway(client, old(client.outgoing), old(client.incoming), ending, config)
    ensures attempt.Some? ==>
              var a, end := attempt.value, HeaderEnd(old(client.incoming));
              && AsksFor(old(client.incoming), config, a.destination) && end.Some?
              && Routed(a.route, config, a.destination, resolve, before, after)
              && Authenticated(a.route, config.Upstream(a.destination), before, after)
              && Concluded(client, old(client.outgoing), a, tunnel, ending, old(client.incoming)[end.value..],
                           config.Upstream(a.destination), config.idleTimeout, before, after)
    ensures old(client.outgoing) <= client.outgoing
    ensures Told(client.outgoing[|old(client.outgoing)|..], ending, tunnel.Some?, client.failed)
  {
    ghost var sent, stream := client.outgoing, client.incoming;
    ending, attempt, tunnel, before, after := AnswerClient(config, client, net, factory, resolve, start);
    if attempt.None? {
      TurnedAwayIsTold(client, sent, stream, ending, config);
    } else {
      var rest := stream[HeaderEnd(stream).value..];
      ConcludedIsTold(client, sent, attempt.value, tunnel, ending, rest, config.Upstream(attempt.value.destination),
                      config.idleTimeout, before, after);
    }
  }

  // ---------------------------------------------------------------------------------------------
  // What a client is told, as literal text

  /** The text begins with this line; if the connection failed it may end within it. */
  ghost predicate Opens(said: Bytes, line: Bytes, cut: bool) {
    line <= said || (cut && said <= line)
  }

  /** The status line of a response. */
  function StatusLine(code: string, reason: string): Bytes {
    Ascii("HTTP/1.1 ") + Ascii(code) + [' ' as int] + Ascii(reason) + ['\r' as int, '\n' as int]
  }

  /** A client is told that it has a tunnel only if it has one, and otherwise why it has none. `cut` says that its
      connection failed, so that it may have been told less. */
  ghost predicate Told(said: Bytes, ending: Ending, tunnelled: bool, cut: bool) {
    var grant := StatusLine("200", "Connection Established") + ['\r' as int, '\n' as int];
    && (grant <= said ==> tunnelled)
    && (tunnelled ==> Opens(said, grant, cut))
    && (!tunnelled ==>
          match ending
          case BadRequest(_) => Opens(said, StatusLine("400", "Bad Request"), cut)
          case NotConnect => Opens(said, StatusLine("405", "CONNECT Required"), cut)
          case InvalidTarget => Opens(said, StatusLine("400", "Invalid CONNECT Target"), cut)
          case NoTunnel(_) => Opens(said, StatusLine("502", "Bad Gateway"), cut)
          case Disconnected => cut && said == []
          case _ => false)
  }

  lemma PrintedStatus(n: nat)
    requires 100 <= n < 1000
    ensures Print(n, 10) == [48 + n / 100, 48 + n / 10 % 10, 48 + n % 10]
  {
    PrintSplits(n, 10);
    PrintSplits(n / 10, 10);
  }

  lemma FirstLine(status: nat, code: string, reason: string)
    requires 100 <= status < 1000 && |code| == 3
    requires code[0] as int == 48 + status / 100 && code[1] as int == 48 + status / 10 % 10
    requires code[2] as int == 48 + status % 10
    ensures StatusLine(code, reason) <= ErrorResponse(status, Ascii(reason))
  {
    PrintedStatus(status);
    assert Ascii(code) == Print(status, 10);
  }

  /** What is left of a text that is sent, perhaps not to the end. */
  lemma SentPart(sent: Bytes, text: Bytes, outgoing: Bytes, line: Bytes, cut: bool)
    requires sent <= outgoing <= sent + text && (cut || outgoing == sent + text) && line <= text
    ensures Opens(outgoing[|sent|..], line, cut)
  {
    assert outgoing[|sent|..] == text[..|outgoing| - |sent|];
  }

  /** A text that begins with the line of a refusal, or is cut within it, does not begin with a grant: they differ in
      their tenth byte. */
  lemma NotGranted(said: Bytes, line: Bytes, cut: bool, grant: Bytes)
    requires Opens(said, line, cut) && |line| > 9 && |grant| > 9 && line[9] != grant[9]
    ensures !(grant <= said)
  {
  }

  /** The response that refuses a client begins with the line for the way its connection ended. */
  lemma RefusalLine(e: Ending) returns (code: string, reason: string)
    requires Refusal(e).Some?
    ensures StatusLine(code, reason) <= Refusal(e).value && |code| == 3 && code[0] != '2'
    ensures e.BadRequest? ==> code == "400" && reason == "Bad Request"
    ensures e.NotConnect? ==> code == "405" && reason == "CONNECT Required"
    ensures e.InvalidTarget? ==> code == "400" && reason == "Invalid CONNECT Target"
    ensures e.NoTunnel? ==> code == "502" && reason == "Bad Gateway"
  {
    if e.BadRequest? {
      code, reason := "400", "Bad Request";
      FirstLine(400, code, reason);
    } else if e.NotConnect? {
      code, reason := "405", "CONNECT Required";
      FirstLine(405, code, reason);
    } else if e.InvalidTarget? {
      code, reason := "400", "Invalid CONNECT Target";
      FirstLine(400, code, reason);
    } else {
      code, reason := "502", "Bad Gateway";
      FirstLine(502, code, reason);
    }
  }

  lemma RefusalIsTold(e: Ending, sent: Bytes, outgoing: Bytes, cut: bool)
    requires Refusal(e).Some? && sent <= outgoing <= sent + Refusal(e).value
    requires cut || outgoing == sent + Refusal(e).value
    ensures Told(outgoing[|sent|..], e, false, cut)
  {
    var code, reason := RefusalLine(e);
    var line := StatusLine(code, reason);
    SentPart(sent, Refusal(e).value, outgoing, line, cut);
    NotGranted(outgoing[|sent|..], line, cut, StatusLine("200", "Connection Established") + CRLF);
  }

  lemma GrantText()
    ensures Established200() == StatusLine("200", "Connection Established") + ['\r' as int, '\n' as int]
  {
    AsciiAppend("HTTP/1.1 ", "200");
    AsciiAppend("HTTP/1.1 " + "200", " ");
    AsciiAppend("HTTP/1.1 " + "200" + " ", "Connection Established");
    OneSpace();
    assert "HTTP/1.1 " + "200" + " " + "Connection Established" == "HTTP/1.1 200 Connection Established";
    TwoBreaks(Ascii("HTTP/1.1 200 Connection Established"));
  }

  lemma OneSpace()
    ensures Ascii(" ") == [' ' as int]
  {
  }

  lemma TwoBreaks(line: Bytes)
    ensures line + CRLFCRLF == line + ['\r' as int, '\n' as int] + ['\r' as int, '\n' as int]
  {
  }

  lemma GrantIsTold(x: Tunnelled, e: Ending, sent: Bytes, outgoing: Bytes, cut: bool)
    requires outgoing == sent + x.told + x.down && x.told <= Established200()
    requires x.told != Established200() ==> cut && x.down == []
    ensures Told(outgoing[|sent|..], e, true, cut)
  {
    GrantText();
    assert outgoing[|sent|..] == x.told + x.down;
  }

  lemma TurnedAwayIsTold(client: TcpStream, sent: Bytes, stream: Bytes, ending: Ending, config: ProxyConfig)
    requires TurnedAway(client, sent, stream, ending, config)
    ensures sent <= client.outgoing && Told(client.outgoing[|sent|..], ending, false, client.failed)
  {
    if Refusal(ending).Some? {
      RefusalIsTold(ending, sent, client.outgoing, client.failed);
    }
  }

  lemma ConcludedIsTold(client: TcpStream, sent: Bytes, a: Attempt, tunnel: Option<Tunnelled>, ending: Ending,
                        rest: Bytes, config: Config, idleTimeout: Option<nat>, before: World, after: World)
    requires before.sockets <= after.sockets
    requires Concluded(client, sent, a, tunnel, ending, rest, config, idleTimeout, before, after)
    ensures sent <= client.outgoing && Told(client.outgoing[|sent|..], ending, tunnel.Some?, client.failed)
  {
    match tunnel
    case None => RefusalIsTold(ending, sent, client.outgoing, client.failed);
    case Some(x) => GrantIsTold(x, ending, sent, client.outgoing, client.failed);
  }

  /** A client that never gets as far as a tunnel: its connection failed at once, or its request deserves the
      refusal it is sent. */
  ghost predicate TurnedAway(client: TcpStream, sent: Bytes, stream: Bytes, ending: Ending, config: ProxyConfig)
    reads client
  {
    || (ending == Disconnected && client.failed && client.outgoing == sent)
    || (&& Justified(ending, stream, config) && Refusal(ending).Some?
        && sent <= client.outgoing <= sent + Refusal(ending).value
        && (client.failed || client.outgoing == sent + Refusal(ending).value))
  }
}
