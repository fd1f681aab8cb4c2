/** What an upstream handshake does, event by event, and the rules every run of it obeys.

    The rules say what each event may be, given everything before it. The theorems after them are
    about whole runs. */
module Protocol {
  import opened Wire
  import opened Messages
  import opened Challenges
  import opened Responses
  import Framing

  const MAX_AUTH_ROUNDS: nat := 4

  datatype Event =
    | Dialed(socket: nat)                                       // a connection to the upstream proxy was opened
    | Asked(socket: nat, authorization: Option<Bytes>)          // a CONNECT request was written to it
    | Answered(socket: nat, head: ResponseHead)                 // a response head was read from it
    | Stepped(challenge: Option<Bytes>, token: Option<Bytes>)   // the security context was asked for a token

  datatype Trace = Start | Then(past: Trace, event: Event)

  datatype TokenError = NotOffered | Undecodable

  /** How a run reads the responses it gets, and words the credentials it sends: whether a response closes
      its connection, which scheme the first response settles, the token a response has for a scheme
      (`Ok(None)` if its item has none), and the value of Proxy-Authorization for a token. */
  datatype Setting = Setting(
    closes: ResponseHead -> bool,
    scheme: ResponseHead -> Result<AuthScheme, ChoiceError>,
    token: (ResponseHead, AuthScheme) -> Result<Option<Bytes>, TokenError>,
    credentials: (AuthScheme, Bytes) -> Bytes)

  // ---------------------------------------------------------------------------------------------
  // Looking back over a trace

  ghost function Dials(t: Trace): nat {
    match t
    case Start => 0
    case Then(past, e) => Dials(past) + (if e.Dialed? then 1 else 0)
  }

  /** How often the security context was stepped. */
  ghost function Steps(t: Trace): nat {
    match t
    case Start => 0
    case Then(past, e) => Steps(past) + (if e.Stepped? then 1 else 0)
  }

  /** CONNECT requests without and with Proxy-Authorization. */
  ghost function PlainAsks(t: Trace): nat {
    match t
    case Start => 0
    case Then(past, e) => PlainAsks(past) + (if e.Asked? && e.authorization.None? then 1 else 0)
  }

  ghost function TokenAsks(t: Trace): nat {
    match t
    case Start => 0
    case Then(past, e) => TokenAsks(past) + (if e.Asked? && e.authorization.Some? then 1 else 0)
  }

  /** The sockets that carried a token. */
  ghost function TokenSockets(t: Trace): set<nat> {
    match t
    case Start => {}
    case Then(past, e) => TokenSockets(past) + (if e.Asked? && e.authorization.Some? then {e.socket} else {})
  }

  /** All response heads read, in order. */
  ghost function Heads(t: Trace): seq<ResponseHead> {
    match t
    case Start => []
    case Then(past, e) => Heads(past) + (if e.Answered? then [e.head] else [])
  }

  /** All steps of the security context, in order: its argument, and the token if it gave one. */
  ghost function StepLog(t: Trace): seq<(Option<Bytes>, Option<Bytes>)> {
    match t
    case Start => []
    case Then(past, e) => StepLog(past) + (if e.Stepped? then [(e.challenge, e.token)] else [])
  }

  /** The heads read from one socket, in order. */
  ghost function HeadsOn(t: Trace, socket: nat): seq<ResponseHead> {
    match t
    case Start => []
    case Then(past, e) => HeadsOn(past, socket) + (if e.Answered? && e.socket == socket then [e.head] else [])
  }

  ghost function LastOn(t: Trace, socket: nat): Option<ResponseHead> {
    var heads := HeadsOn(t, socket);
    if heads == [] then None else Some(heads[|heads| - 1])
  }

  /** What one more event adds to each of these. */
  lemma OneMore(t: Trace, e: Event, socket: nat)
    ensures var t' := Then(t, e);
            && Dials(t') == Dials(t) + (if e.Dialed? then 1 else 0)
            && Steps(t') == Steps(t) + (if e.Stepped? then 1 else 0)
            && PlainAsks(t') == PlainAsks(t) + (if e.Asked? && e.authorization.None? then 1 else 0)
            && TokenAsks(t') == TokenAsks(t) + (if e.Asked? && e.authorization.Some? then 1 else 0)
            && TokenSockets(t') == TokenSockets(t) + (if e.Asked? && e.authorization.Some? then {e.socket} else {})
            && StepLog(t') == StepLog(t) + (if e.Stepped? then [(e.challenge, e.token)] else [])
            && Heads(t') == Heads(t) + (if e.Answered? then [e.head] else [])
            && HeadsOn(t', socket) == HeadsOn(t, socket) + (if e.Answered? && e.socket == socket then [e.head] else [])
  {
  }

  // ---------------------------------------------------------------------------------------------
  // The rules

  /** The scheme of a run: chosen from the first response. */
  ghost function SchemeOf(t: Trace, s: Setting): Option<AuthScheme> {
    if Heads(t) == [] then None
    else
      match s.scheme(Heads(t)[0])
      case Err(_) => None
      case Ok(scheme) => Some(scheme)
  }

  /** A socket is opened at the start, or once more: right after the first response, if that was a 407
      that closes its connection and whose challenge has no token. */
  ghost predicate MayDial(past: Trace, socket: nat, s: Setting) {
    && socket == Dials(past)
    && (past.Start? ||
        (&& socket == 1 && past.event.Answered? && Heads(past) == [past.event.head]
         && Steps(past) == 0
         && past.event.head.status == 407
         && s.closes(past.event.head)
         && SchemeOf(past, s).Some?
         && s.token(past.event.head, SchemeOf(past, s).value) == Ok(None)))
  }

  /** A request goes to the newest socket, never after a response that closes it. Right after the first
      connection it carries no token; otherwise it carries the token just obtained. */
  ghost predicate MayAsk(past: Trace, socket: nat, authorization: Option<Bytes>, s: Setting) {
    && socket + 1 == Dials(past)
    && (LastOn(past, socket).Some? ==> !s.closes(LastOn(past, socket).value))
    && match authorization
       case None => past == Then(Start, Dialed(socket))
       case Some(credentials) =>
         && TokenAsks(past) < MAX_AUTH_ROUNDS
         && past.Then? && past.event.Stepped? && past.event.token.Some?
         && SchemeOf(past, s).Some?
         && credentials == s.credentials(SchemeOf(past, s).value, past.event.token.value)
  }

  /** A step consumes the challenge of the latest response, which no earlier step has seen. */
  ghost predicate MayStep(past: Trace, challenge: Option<Bytes>, s: Setting) {
    && |Heads(past)| == Steps(past) + 1
    && Heads(past)[|Heads(past)| - 1].status == 407
    && SchemeOf(past, s).Some?
    && s.token(Heads(past)[|Heads(past)| - 1], SchemeOf(past, s).value) == Ok(challenge)
  }

  /** A response answers the request just sent. */
  ghost predicate MayAnswer(past: Trace, socket: nat) {
    past.Then? && past.event.Asked? && past.event.socket == socket
  }

  ghost predicate May(past: Trace, e: Event, s: Setting) {
    match e
    case Dialed(socket) => MayDial(past, socket, s)
    case Asked(socket, authorization) => MayAsk(past, socket, authorization, s)
    case Answered(socket, _) => MayAnswer(past, socket)
    case Stepped(challenge, _) => MayStep(past, challenge, s)
  }

  /** Every event of the run was permitted when it happened. */
  ghost predicate Lawful(t: Trace, s: Setting) {
    match t
    case Start => true
    case Then(past, e) => Lawful(past, s) && May(past, e, s)
  }

  // ---------------------------------------------------------------------------------------------
  // Theorems about every lawful run

  /** Exact accounting: at most one request without a token, which is the first; at most four with one,
      each after its own step; at most two sockets. */
  lemma {:induction false} Accounting(t: Trace, s: Setting)
    requires Lawful(t, s)
    ensures Dials(t) <= 2 && PlainAsks(t) <= 1 && TokenAsks(t) <= 4
    ensures PlainAsks(t) == 0 ==> TokenAsks(t) == 0
    ensures Steps(t) <= |Heads(t)| <= PlainAsks(t) + TokenAsks(t)
    ensures TokenAsks(t) <= Steps(t)
    ensures t.Then? && t.event.Stepped? ==> TokenAsks(t) < Steps(t)
    ensures t.Then? && t.event.Asked? ==> |Heads(t)| < PlainAsks(t) + TokenAsks(t)
    ensures Dials(t) == 0 <==> t.Start?
  {
    if t.Then? {
      Accounting(t.past, s);
    }
  }

  /** Tokens only ever went to the socket that is the newest now, and to none before the first step. */
  lemma {:induction false} TokensOnNewest(t: Trace, s: Setting)
    requires Lawful(t, s)
    ensures forall socket | socket in TokenSockets(t) :: socket + 1 == Dials(t)
    ensures Steps(t) == 0 ==> TokenSockets(t) == {} && TokenAsks(t) == 0
  {
    if t.Then? {
      TokensOnNewest(t.past, s);
    }
  }

  /** Affinity: all requests that carry a token go to one socket. It follows from two rules: requests go to
      the newest socket, and none is opened after a step. */
  lemma TokensOnOneSocket(t: Trace, s: Setting)
    requires Lawful(t, s)
    ensures exists socket :: TokenSockets(t) <= {socket}
  {
    TokensOnNewest(t, s);
    var newest: nat := if Dials(t) > 0 then Dials(t) - 1 else 0;
    assert TokenSockets(t) <= {newest};
  }

  /** `t` is an earlier moment of the run `u`. */
  ghost predicate Earlier(t: Trace, u: Trace) {
    t == u || (u.Then? && Earlier(t, u.past))
  }

  /** Once the security context has been stepped no connection is opened any more. */
  lemma {:induction false} NoDialAfterStep(t: Trace, u: Trace, s: Setting)
    requires Lawful(u, s) && Earlier(t, u) && Steps(t) > 0
    ensures Dials(u) == Dials(t) && Steps(u) >= Steps(t)
  {
    if t != u {
      NoDialAfterStep(t, u.past, s);
    }
  }

  /** What a run with two connections must have seen: its first response was a 407 that closes the
      connection, with a challenge that has no token; and all its tokens went to the second. */
  lemma {:induction false} WhyReconnected(t: Trace, s: Setting)
    requires Lawful(t, s) && Dials(t) == 2
    ensures Heads(t) != [] && Heads(t)[0].status == 407 && s.closes(Heads(t)[0])
    ensures SchemeOf(t, s).Some? && s.token(Heads(t)[0], SchemeOf(t, s).value) == Ok(None)
    ensures TokenSockets(t) <= {1}
  {
    TokensOnNewest(t, s);
    if t.event.Dialed? {
      Accounting(t.past, s);
    } else {
      WhyReconnected(t.past, s);
    }
  }

  /** Threading: the argument of the `k`-th step is the decoded token of the first item of the run's
      scheme in the `k`-th response, or nothing if that item has no token; that response is a 407. */
  lemma {:induction false} KthStepReadsKthResponse(t: Trace, s: Setting, k: nat)
    requires Lawful(t, s) && k < Steps(t)
    ensures |StepLog(t)| == Steps(t) && k < |Heads(t)|
    ensures SchemeOf(t, s).Some?
    ensures s.token(Heads(t)[k], SchemeOf(t, s).value) == Ok(StepLog(t)[k].0)
    ensures Heads(t)[k].status == 407
  {
    StepCount(t);
    StepCount(t.past);
    if k < Steps(t.past) {
      KthStepReadsKthResponse(t.past, s, k);
    } else {
      assert MayStep(t.past, t.event.challenge, s);
    }
    FirstResponseStays(t, s);
  }

  /** What was read first stays first. */
  lemma FirstResponseStays(t: Trace, s: Setting)
    requires t.Then? && Heads(t.past) != []
    ensures Heads(t.past) <= Heads(t)
    ensures SchemeOf(t, s) == SchemeOf(t.past, s)
  {
    assert Heads(t)[0] == Heads(t.past)[0];
  }

  lemma {:induction false} StepCount(t: Trace)
    ensures |StepLog(t)| == Steps(t)
  {
    if t.Then? {
      StepCount(t.past);
    }
  }

  /** The requests written to one socket so far. */
  ghost function SentOn(t: Trace, socket: nat, request: Option<Bytes> -> Bytes): Bytes {
    match t
    case Start => []
    case Then(past, e) =>
      SentOn(past, socket, request) + (if e.Asked? && e.socket == socket then request(e.authorization) else [])
  }

  /** Once a response on a socket has announced that it closes, nothing is written to that socket and no
      further head is read from it, however long the run goes on. */
  lemma {:induction false} NothingSentAfterClose(t: Trace, u: Trace, s: Setting, socket: nat,
                                                 request: Option<Bytes> -> Bytes)
    requires Lawful(u, s) && Earlier(t, u)
    requires LastOn(t, socket).Some? && s.closes(LastOn(t, socket).value)
    ensures SentOn(u, socket, request) == SentOn(t, socket, request)
    ensures HeadsOn(u, socket) == HeadsOn(t, socket)
  {
    if t != u {
      NothingSentAfterClose(t, u.past, s, socket, request);
      if u.event.Answered? && u.event.socket == socket {
        assert May(u.past.past, u.past.event, s);
        assert HeadsOn(u.past.past, socket) == HeadsOn(u.past, socket);
        assert false;
      }
    }
  }

  // ---------------------------------------------------------------------------------------------
  // The setting of the proxy

  function ChosenScheme(head: ResponseHead, mode: AuthMode): Result<AuthScheme, ChoiceError> {
    match ChooseScheme(head, mode)
    case Err(e) => Err(e)
    case Ok((scheme, _)) => Ok(scheme)
  }

  /** The decoded token of the first item of the scheme in a response. */
  function TokenIn(head: ResponseHead, scheme: AuthScheme, decode: Bytes -> Option<Bytes>)
      : Result<Option<Bytes>, TokenError> {
    match FindChallenge(head, scheme)
    case None => Err(NotOffered)
    case Some(c) =>
      match DecodeChallenge(c, decode)
      case None => Err(Undecodable)
      case Some(token) => Ok(token)
  }

  function Authorization(scheme: AuthScheme, token: Bytes, encode: Bytes -> Bytes): Bytes {
    SchemeName(scheme) + [32] + encode(token)
  }

  function Standard(mode: AuthMode, encode: Bytes -> Bytes, decode: Bytes -> Option<Bytes>): Setting {
    Setting((r: ResponseHead) => ConnectionClose(r),
            (r: ResponseHead) => ChosenScheme(r, mode),
            (r: ResponseHead, scheme: AuthScheme) => TokenIn(r, scheme, decode),
            (scheme: AuthScheme, token: Bytes) => Authorization(scheme, token, encode))
  }

  /** The scheme of a run is one its mode permits and its first response offers; in automatic mode it is
      NTLM exactly if no readable item of that response offers Negotiate. */
  lemma SchemeOfRun(t: Trace, mode: AuthMode, encode: Bytes -> Bytes, decode: Bytes -> Option<Bytes>)
    requires SchemeOf(t, Standard(mode, encode, decode)).Some?
    ensures var scheme := SchemeOf(t, Standard(mode, encode, decode)).value;
            && Permits(mode, scheme) && Offers(Heads(t)[0], scheme)
            && (mode == Auto ==> (scheme == Ntlm <==> !Offers(Heads(t)[0], Negotiate)))
  {
    ChoiceMeaning(Heads(t)[0], mode);
  }

  /** The first item of a response that offers the scheme carries this token. */
  ghost predicate FirstItemHas(head: ResponseHead, scheme: AuthScheme, decode: Bytes -> Option<Bytes>,
                               token: Option<Bytes>) {
    exists i, j :: FirstOffer(head, i, j, scheme) && Carries(FieldsAt(head, i, j), decode, token)
  }

  /** There is only one first item. */
  lemma OneFirstOffer(head: ResponseHead, scheme: AuthScheme, i: int, j: int, i': int, j': int)
    requires FirstOffer(head, i, j, scheme) && FirstOffer(head, i', j', scheme)
    ensures i == i' && j == j'
  {
  }

  /** The token of a response for a scheme, from the text of its headers: the one its first item carries; an error if
      no item offers the scheme, and another if the first item that does has a token that cannot be decoded. */
  lemma TokenInMeaning(head: ResponseHead, scheme: AuthScheme, decode: Bytes -> Option<Bytes>, token: Option<Bytes>)
    ensures TokenIn(head, scheme, decode) == Ok(token) <==> FirstItemHas(head, scheme, decode, token)
    ensures TokenIn(head, scheme, decode) == Err(NotOffered) <==> !Offers(head, scheme)
    ensures TokenIn(head, scheme, decode) == Err(Undecodable) <==> FirstItemGarbled(head, scheme, decode)
  {
    FindChallengeMeaning(head, scheme);
    if FindChallenge(head, scheme).Some? {
      var i, j :| FirstOffer(head, i, j, scheme)
                  && FindChallenge(head, scheme).value == ChallengeIn(FieldsAt(head, i, j));
      DecodeMeaning(FieldsAt(head, i, j), decode, token);
      forall i', j' | FirstOffer(head, i', j', scheme) ensures i' == i && j' == j {
        OneFirstOffer(head, scheme, i, j, i', j');
      }
    }
  }

  /** The first item of a response that offers the scheme has a second field that cannot be decoded. */
  ghost predicate FirstItemGarbled(head: ResponseHead, scheme: AuthScheme, decode: Bytes -> Option<Bytes>) {
    exists i, j :: FirstOffer(head, i, j, scheme) && |FieldsAt(head, i, j)| > 1 && decode(FieldsAt(head, i, j)[1]).None?
  }

  /** The argument of every step, spelled out for the proxy: what the first item, among all readable
      Proxy-Authenticate items of the response before it, that offers the scheme of the run carries. */
  lemma StepReadsFirstItem(t: Trace, mode: AuthMode, encode: Bytes -> Bytes, decode: Bytes -> Option<Bytes>, k: nat)
    requires Lawful(t, Standard(mode, encode, decode)) && k < Steps(t)
    ensures |StepLog(t)| == Steps(t) && k < |Heads(t)|
    ensures SchemeOf(t, Standard(mode, encode, decode)).Some?
    ensures FirstItemHas(Heads(t)[k], SchemeOf(t, Standard(mode, encode, decode)).value, decode, StepLog(t)[k].0)
  {
    var s := Standard(mode, encode, decode);
    KthStepReadsKthResponse(t, s, k);
    TokenInMeaning(Heads(t)[k], SchemeOf(t, s).value, decode, StepLog(t)[k].0);
  }

  /** What it means that a run finds no token of its scheme in a response, or no scheme in the first. */
  lemma MissingMeans(t: Trace, last: ResponseHead, mode: AuthMode, encode: Bytes -> Bytes,
                     decode: Bytes -> Option<Bytes>)
    requires Heads(t) != []
    ensures var s := Standard(mode, encode, decode);
            match SchemeOf(t, s)
            case Some(scheme) => s.token(last, scheme) == Err(NotOffered) <==> !Offers(last, scheme)
            case None => forall scheme :: Permits(mode, scheme) ==> !Offers(Heads(t)[0], scheme)
  {
    var s := Standard(mode, encode, decode);
    match SchemeOf(t, s)
    case Some(scheme) => TokenInMeaning(last, scheme, decode, None);
    case None => ChoiceMeaning(Heads(t)[0], mode);
  }

  /** What the text of a response says about its connection: a Connection header lists `close`, or the version is
      HTTP/1.0 and none lists `keep-alive`. */
  ghost predicate AnnouncesClose(head: ResponseHead) {
    || Mentions(head, Ascii("connection"), Ascii("close"))
    || (head.version == 0 && !Mentions(head, Ascii("connection"), Ascii("keep-alive")))
  }

  lemma ClosesMeaning(head: ResponseHead, mode: AuthMode, encode: Bytes -> Bytes, decode: Bytes -> Option<Bytes>)
    ensures Standard(mode, encode, decode).closes(head) <==> AnnouncesClose(head)
  {
    ConnectionCloseMeaning(head);
  }

  /** Connection reuse in the terms of the headers: once a response on a socket has announced that it closes, nothing
      is written to that socket and no further head is read from it. */
  lemma NothingSentAfterCloseHeader(t: Trace, u: Trace, mode: AuthMode, encode: Bytes -> Bytes,
                                    decode: Bytes -> Option<Bytes>, socket: nat, request: Option<Bytes> -> Bytes)
    requires Lawful(u, Standard(mode, encode, decode)) && Earlier(t, u)
    requires LastOn(t, socket).Some? && AnnouncesClose(LastOn(t, socket).value)
    ensures SentOn(u, socket, request) == SentOn(t, socket, request)
    ensures HeadsOn(u, socket) == HeadsOn(t, socket)
  {
    ClosesMeaning(LastOn(t, socket).value, mode, encode, decode);
    NothingSentAfterClose(t, u, Standard(mode, encode, decode), socket, request);
  }

  /** And a second connection is opened only after a first response that announces it. */
  lemma WhyReconnectedHeader(t: Trace, mode: AuthMode, encode: Bytes -> Bytes, decode: Bytes -> Option<Bytes>)
    requires Lawful(t, Standard(mode, encode, decode)) && Dials(t) == 2
    ensures Heads(t) != [] && Heads(t)[0].status == 407 && AnnouncesClose(Heads(t)[0])
    ensures exists scheme :: Permits(mode, scheme) && FirstItemHas(Heads(t)[0], scheme, decode, None)
  {
    var s := Standard(mode, encode, decode);
    WhyReconnected(t, s);
    ClosesMeaning(Heads(t)[0], mode, encode, decode);
    SchemeOfRun(t, mode, encode, decode);
    TokenInMeaning(Heads(t)[0], SchemeOf(t, s).value, decode, None);
  }

  // ---------------------------------------------------------------------------------------------
  // Alignment with the bytes

  /** Every head of the trace is the one a reader of the whole stream of its socket finds there:
      `origins` gives what each socket delivers. */
  ghost predicate Aligned(t: Trace, origins: seq<Bytes>, rules: Rules) {
    match t
    case Start => true
    case Then(past, Answered(socket, head)) =>
      && Aligned(past, origins, rules)
      && socket < |origins|
      && NthHead(origins[socket], |HeadsOn(past, socket)|, rules).Some?
      && NthHead(origins[socket], |HeadsOn(past, socket)|, rules).value.head == head
    case Then(past, _) => Aligned(past, origins, rules)
  }

  /** Opening another socket does not disturb what earlier ones delivered. */
  lemma {:induction false} AlignedGrows(t: Trace, origins: seq<Bytes>, more: Bytes, rules: Rules)
    requires Aligned(t, origins, rules)
    ensures Aligned(t, origins + [more], rules)
  {
    if t.Then? {
      AlignedGrows(t.past, origins, more, rules);
    }
  }

  /** The `k`-th head on a socket, as a position in its stream. */
  lemma {:induction false} KthHeadOn(t: Trace, origins: seq<Bytes>, rules: Rules, socket: nat, k: nat)
    requires Aligned(t, origins, rules) && k < |HeadsOn(t, socket)|
    ensures socket < |origins|
    ensures NthHead(origins[socket], k, rules).Some?
    ensures NthHead(origins[socket], k, rules).value.head == HeadsOn(t, socket)[k]
  {
    if k < |HeadsOn(t.past, socket)| {
      KthHeadOn(t.past, origins, rules, socket, k);
    }
  }

  /** Every head read on a socket fits in the cap of the rules it was read by. */
  lemma HeadsWithinCap(t: Trace, origins: seq<Bytes>, parse: ResponseParser, cap: nat, socket: nat, k: nat)
    requires Aligned(t, origins, Capped(parse, cap)) && k < |HeadsOn(t, socket)|
    ensures socket < |origins| && HeadStart(origins[socket], k, Capped(parse, cap)).Some?
    ensures var here := HeadStart(origins[socket], k, Capped(parse, cap)).value;
            && Framing.HeaderEnd(here).Some? && Framing.HeaderEnd(here).value <= cap
            && parse(here[..Framing.HeaderEnd(here).value]) == Some(HeadsOn(t, socket)[k])
  {
    KthHeadOn(t, origins, Capped(parse, cap), socket, k);
    HeadAtStart(origins[socket], k, Capped(parse, cap));
  }

  /** Response alignment over every run: if a socket delivers correctly framed responses, the `k`-th
      head the run reads from it is the head of the `k`-th response sent on it. */
  lemma ResponsesInOrder(t: Trace, origins: seq<Bytes>, parse: ResponseParser, max: nat, cap: nat,
                         socket: nat, ms: seq<Message>, tail: Bytes, k: nat)
    requires Aligned(t, origins, Capped(parse, cap)) && max <= cap
    requires socket < |origins| && origins[socket] == Send(ms) + tail
    requires k < |HeadsOn(t, socket)| && k < |ms|
    requires forall i | 0 <= i < k :: Framed(ms[i], parse, max, Framing.CHUNK_LINE)
    requires HeadFits(ms[k], parse, max)
    ensures parse(ms[k].head) == Some(HeadsOn(t, socket)[k])
  {
    KthHeadIsKthResponse(ms, tail, k, parse, max, Framing.CHUNK_LINE);
    LimitsAgree(parse, max, Framing.CHUNK_LINE, cap);
    NthHeadAgrees(origins[socket], k, Reading(parse, max, Framing.CHUNK_LINE), Capped(parse, cap));
    KthHeadOn(t, origins, Capped(parse, cap), socket, k);
  }
}
