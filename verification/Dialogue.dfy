/** What the peers of the proxy read: the upstream proxy cuts what it receives into requests, and the client
    finds one head in what it is told (`src/server.rs`). */
module Dialogue {
  import opened Wire
  import opened Endpoints
  import opened Challenges
  import opened Framing
  import opened Requests
  import opened Protocol
  import opened Tunnel

  // ---------------------------------------------------------------------------------------------
  // Cutting a stream into heads

  /** The heads a stream starts with, cut one after the other at the first CRLFCRLF. */
  function Cut(s: Bytes): seq<Bytes>
    decreases |s|
  {
    match HeaderEnd(s)
    case None => []
    case Some(e) => [s[..e]] + Cut(s[e..])
  }

  /** The stream is nothing but heads: nothing is left over when it is cut. */
  ghost predicate Whole(s: Bytes)
    decreases |s|
  {
    s == [] || (HeaderEnd(s).Some? && Whole(s[HeaderEnd(s).value..]))
  }

  lemma FirstHeadStays(a: Bytes, b: Bytes)
    requires HeaderEnd(a).Some?
    ensures var e := HeaderEnd(a).value;
            HeaderEnd(a + b) == Some(e) && (a + b)[..e] == a[..e] && (a + b)[e..] == a[e..] + b
  {
    FindInPrefix(CRLFCRLF, a, b);
  }

  lemma {:induction false} CutAppend(a: Bytes, b: Bytes)
    requires Whole(a) && Whole(b)
    ensures Cut(a + b) == Cut(a) + Cut(b) && Whole(a + b)
    decreases |a|
  {
    if a == [] {
      assert a + b == b;
    } else {
      FirstHeadStays(a, b);
      var e := HeaderEnd(a).value;
      CutAppend(a[e..], b);
      assert Cut(a + b) == [a[..e]] + (Cut(a[e..]) + Cut(b));
    }
  }

  lemma CutNothing(s: Bytes)
    requires s == []
    ensures Cut(s) == [] && Whole(s)
  {
  }

  lemma CutOne(head: Bytes)
    requires HeaderEnd(head) == Some(|head|)
    ensures Cut(head) == [head] && Whole(head)
  {
    CutNothing(head[|head|..]);
    assert head[..|head|] == head;
    assert Cut(head) == [head] + [];
  }

  // ---------------------------------------------------------------------------------------------
  // The requests of a run

  /** The requests of a run on one socket, in order. */
  ghost function RequestsOn(t: Trace, socket: nat, request: Option<Bytes> -> Bytes): seq<Bytes> {
    match t
    case Start => []
    case Then(past, e) =>
      RequestsOn(past, socket, request) + (if e.Asked? && e.socket == socket then [request(e.authorization)] else [])
  }

  /** No token can break a line: its base64 form holds no CR. */
  lemma PlainAuthorization(scheme: AuthScheme, token: Bytes, encode: Bytes -> Bytes)
    requires CR !in encode(token)
    ensures CR !in Authorization(scheme, token, encode)
  {
  }

  /** Every request of a lawful run is one head. */
  lemma AskIsOneHead(t: Trace, config: ProxyConfig, destination: Endpoint)
    requires Acceptable(destination) && forall x :: CR !in config.encode(x)
    requires Lawful(t, config.Upstream(destination).setting) && t.Then? && t.event.Asked?
    ensures var text := config.Upstream(destination).request(t.event.authorization);
            && HeaderEnd(text) == Some(|text|)
            && (RequestedEndpoint(text) == Some(destination) <==> Printable(destination))
  {
    if t.event.authorization.Some? {
      var scheme := SchemeOf(t.past, config.Upstream(destination).setting).value;
      PlainAuthorization(scheme, t.past.event.token.value, config.encode);
    }
    RequestHasItsHead(destination, t.event.authorization);
    RequestReadsBack(destination, t.event.authorization);
  }

  /** In every run the upstream proxy that cuts what it receives on a socket at the ends of heads finds
      exactly the requests of the run on that socket, in order, with nothing left over; and each of them
      asks for the destination, if that prints unambiguously. */
  lemma {:induction false} UpstreamReadsRequests(t: Trace, socket: nat, config: ProxyConfig, destination: Endpoint)
    requires Acceptable(destination) && forall x :: CR !in config.encode(x)
    requires Lawful(t, config.Upstream(destination).setting)
    ensures var request := config.Upstream(destination).request;
            && Cut(SentOn(t, socket, request)) == RequestsOn(t, socket, request)
            && Whole(SentOn(t, socket, request))
            && forall r | r in RequestsOn(t, socket, request) ::
                 RequestedEndpoint(r) == Some(destination) <==> Printable(destination)
  {
    var request := config.Upstream(destination).request;
    if t.Start? {
      assert Cut([]) == [];
    } else {
      UpstreamReadsRequests(t.past, socket, config, destination);
      var text := if t.event.Asked? && t.event.socket == socket then request(t.event.authorization) else [];
      if t.event.Asked? && t.event.socket == socket {
        AskIsOneHead(t, config, destination);
        CutOne(text);
      } else {
        assert Cut(text) == [];
      }
      CutAppend(SentOn(t.past, socket, request), text);
    }
  }

  // ---------------------------------------------------------------------------------------------
  // The credentials in a request

  predicate Visible(word: Bytes) {
    word != [] && forall c | c in word :: 33 <= c <= 126
  }

  lemma {:induction false} WordEnds(word: Bytes, rest: Bytes)
    requires forall c | c in word :: 33 <= c <= 126
    requires rest == [] || rest[0] == SPACE
    ensures WordLength(word + rest) == |word|
  {
    if word == [] {
      assert word + rest == rest;
    } else {
      assert word[0] in word;
      assert forall c | c in word[1..] :: c in word;
      assert (word + rest)[1..] == word[1..] + rest;
      WordEnds(word[1..], rest);
    }
  }

  lemma TwoFields(a: Bytes, b: Bytes)
    requires Visible(a) && Visible(b)
    ensures Fields(a + [SPACE] + b) == [a, b]
  {
    assert a[0] in a && b[0] in b;
    WordEnds(b, []);
    assert b + [] == b;
    assert Fields([]) == [];
    assert b[..|b|] == b && b[|b|..] == [];
    assert Fields(b) == [b] + Fields([]);
    var s := a + [SPACE] + b;
    assert s == a + ([SPACE] + b);
    WordEnds(a, [SPACE] + b);
    assert s[..|a|] == a && s[|a|..] == [SPACE] + b;
    assert ([SPACE] + b)[1..] == b;
    assert TrimStart([SPACE] + b) == b;
  }

  /** Credentials read back: taken apart as a challenge is, the value of Proxy-Authorization names the scheme
      of the run and carries the token. */
  lemma CredentialsReadBack(scheme: AuthScheme, token: Bytes, encode: Bytes -> Bytes, decode: Bytes -> Option<Bytes>)
    requires Visible(encode(token)) && decode(encode(token)) == Some(token)
    ensures var text := Authorization(scheme, token, encode);
            && Names(text, scheme)
            && DecodeChallenge(ChallengeOf(text), decode) == Some(Some(token))
  {
    assert Visible(SchemeName(scheme));
    TwoFields(SchemeName(scheme), encode(token));
  }

  /** In every run the credentials of a request carry the token the security context has just given, under the name
      of the scheme of the run. */
  lemma CredentialsOfRun(t: Trace, config: ProxyConfig, destination: Endpoint)
    requires Lawful(t, config.Upstream(destination).setting)
    requires t.Then? && t.event.Asked? && t.event.authorization.Some?
    requires forall x :: Visible(config.encode(x)) && config.decode(config.encode(x)) == Some(x)
    ensures SchemeOf(t, config.Upstream(destination).setting).Some? && StepLog(t) != []
    ensures var text, last := t.event.authorization.value, StepLog(t)[|StepLog(t)| - 1];
            && Names(text, SchemeOf(t, config.Upstream(destination).setting).value)
            && last.1.Some? && DecodeChallenge(ChallengeOf(text), config.decode) == Some(last.1)
  {
    var s := config.Upstream(destination).setting;
    var token := t.past.event.token.value;
    assert StepLog(t) == StepLog(t.past) && Heads(t) == Heads(t.past);
    CredentialsReadBack(SchemeOf(t.past, s).value, token, config.encode, config.decode);
  }

  // ---------------------------------------------------------------------------------------------
  // What the client is told

  lemma GrantLines()
    ensures Established200() == HeadText([Ascii("HTTP/1.1 200 Connection Established")])
    ensures PlainLine(Ascii("HTTP/1.1 200 Connection Established"))
  {
    HeadTextCons(Ascii("HTTP/1.1 200 Connection Established"), []);
    assert [Ascii("HTTP/1.1 200 Connection Established")] + [] == [Ascii("HTTP/1.1 200 Connection Established")];
  }

  /** The 200 is one head, whatever the tunnel carries after it: the client finds the tunnel right behind. */
  lemma GrantIsOneHead(down: Bytes)
    ensures HeaderEnd(Established200() + down) == Some(|Established200()|)
  {
    GrantLines();
    HeadEndsOnce([Ascii("HTTP/1.1 200 Connection Established")]);
    FindInPrefix(CRLFCRLF, Established200(), down);
  }

  /** The lines of the response that refuses a client. */
  function RefusalLines(status: nat, reason: Bytes): seq<Bytes> {
    [ Ascii("HTTP/1.1 ") + Print(status, 10) + [32] + reason,
      Ascii("Connection: close"),
      Ascii("Content-Type: text/plain; charset=utf-8"),
      LengthLine(|RefusalBody(status, reason)|) ]
  }

  function LengthLine(n: nat): Bytes { Ascii("Content-Length: ") + Print(n, 10) }

  lemma RefusalInLines(status: nat, reason: Bytes)
    ensures ErrorResponse(status, reason) == HeadText(RefusalLines(status, reason)) + RefusalBody(status, reason)
  {
    var lines := RefusalLines(status, reason);
    HeadTextOfFour(lines[0], lines[1], lines[2], lines[3], []);
    assert lines + [] == lines;
    assert CRLF + CRLF == CRLFCRLF;
  }

  lemma RefusalLinesPlain(status: nat, reason: Bytes)
    requires CR !in reason
    ensures forall i | 0 <= i < 4 :: PlainLine(RefusalLines(status, reason)[i])
  {
    PrintsDigits(status, 10);
    PrintsDigits(|RefusalBody(status, reason)|, 10);
    assert PlainLine(Ascii("HTTP/1.1 ")) && PlainLine(Ascii("Content-Length: "));
    assert PlainLine(Ascii("Connection: close")) && PlainLine(Ascii("Content-Type: text/plain; charset=utf-8"));
  }

  /** A refusal is framed: its first head ends where its body begins, and the last line of that head
      announces the length of the body. */
  lemma RefusalIsFramed(status: nat, reason: Bytes) returns (head: Bytes, front: Bytes)
    requires CR !in reason
    ensures var body := Print(status, 10) + [' ' as int] + reason + ['\n' as int];
            && ErrorResponse(status, reason) == head + body
            && HeaderEnd(ErrorResponse(status, reason)) == Some(|head|)
            && head == front + LengthLine(|body|) + CRLFCRLF
  {
    var lines := RefusalLines(status, reason);
    head := HeadText(lines);
    front := LinesInFront(lines[0], lines[1], lines[2], lines[3]);
    RefusalInLines(status, reason);
    RefusalLinesPlain(status, reason);
    HeadEndsOnce(lines);
    FindInPrefix(CRLFCRLF, head, RefusalBody(status, reason));
  }

  lemma LinesInFront(a: Bytes, b: Bytes, c: Bytes, d: Bytes) returns (front: Bytes)
    ensures HeadText([a, b, c, d]) == front + d + CRLFCRLF
  {
    front := a + CRLF + b + CRLF + c + CRLF;
    HeadTextOfFour(a, b, c, d, []);
    assert [a, b, c, d] + [] == [a, b, c, d];
    assert front + d + CRLF + CRLF == front + d + CRLFCRLF;
  }
}
