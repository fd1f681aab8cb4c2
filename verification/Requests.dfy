/** The CONNECT request sent upstream (`send_connect_request` of `src/server.rs`). */
module Requests {
  import opened Wire
  import opened Endpoints
  import opened Chunked
  import opened Framing
  import opened Sockets

  const SPACE: byte := 32

  function RequestLine(destination: Endpoint): Bytes {
    Ascii("CONNECT ") + Display(destination) + Ascii(" HTTP/1.1")
  }

  /** The lines of the request head. */
  function RequestLines(destination: Endpoint, authorization: Option<Bytes>): seq<Bytes> {
    [ RequestLine(destination),
      Ascii("Host: ") + Display(destination),
      Ascii("Proxy-Connection: Keep-Alive"),
      Ascii("Connection: Keep-Alive") ]
    + (if authorization.Some? then [Ascii("Proxy-Authorization: ") + authorization.value] else [])
  }

  /** Lines with their CRLF, and the empty line that ends a head. */
  function HeadText(lines: seq<Bytes>): Bytes {
    if lines == [] then CRLF else lines[0] + CRLF + HeadText(lines[1..])
  }

  function ConnectRequest(destination: Endpoint, authorization: Option<Bytes>): Bytes {
    HeadText(RequestLines(destination, authorization))
  }

  /** Builds the request by appending, and writes it. */
  method SendConnectRequest(stream: TcpStream, destination: Endpoint, authorization: Option<Bytes>) returns (ok: bool)
    modifies stream`outgoing, stream`failed
    ensures stream.failed <==> old(stream.failed) || !ok
    ensures old(stream.outgoing) <= stream.outgoing <= old(stream.outgoing) + ConnectRequest(destination, authorization)
    ensures ok ==> stream.outgoing == old(stream.outgoing) + ConnectRequest(destination, authorization)
  {
    var request := FixedPart(destination);
    if authorization.Some? {
      request := request + (Ascii("Proxy-Authorization: ") + authorization.value) + CRLF;
    }
    request := request + CRLF;
    RequestUnrolled(destination, authorization);
    ok := stream.WriteAll(request);
  }

  /** The part of the request that every CONNECT carries. */
  function FixedPart(destination: Endpoint): Bytes {
    RequestLine(destination) + CRLF
    + (Ascii("Host: ") + Display(destination)) + CRLF
    + Ascii("Proxy-Connection: Keep-Alive") + CRLF
    + Ascii("Connection: Keep-Alive") + CRLF
  }

  /** A line that cannot be confused with the end of a head. */
  predicate PlainLine(line: Bytes) { line != [] && CR !in line }

  /** No head ends inside a plain line. */
  lemma NotInLine(line: Bytes, rest: Bytes, j: nat)
    requires PlainLine(line) && j < |line|
    ensures !Occurs(CRLFCRLF, line + CRLF + rest, j)
  {
    var s := line + CRLF + rest;
    if j + 4 <= |s| {
      assert s[j..j + 4][0] == s[j] == line[j];
      assert line[j] in line;
    }
  }

  /** None ends across the CRLF of a line when another line follows. */
  lemma NotAtBreak(line: Bytes, rest: Bytes, j: nat)
    requires rest != [] && rest[0] != CR && |line| <= j < |line| + 2
    ensures !Occurs(CRLFCRLF, line + CRLF + rest, j)
  {
    var s := line + CRLF + rest;
    if j + 4 <= |s| {
      assert s[|line|] == CR && s[|line| + 1] == LF && s[|line| + 2] == rest[0];
      assert s[j..j + 4][|line| + 2 - j] == rest[0];
      assert s[j..j + 4][0] == s[j];
    }
  }

  /** Behind the first line the heads are those of the rest. */
  lemma BehindLine(line: Bytes, rest: Bytes, i: nat)
    ensures Occurs(CRLFCRLF, line + CRLF + rest, |line| + 2 + i) == Occurs(CRLFCRLF, rest, i)
  {
    var s, n := line + CRLF + rest, |line| + 2;
    if i + 4 <= |rest| {
      assert s[n + i..n + i + 4] == rest[i..i + 4];
    }
  }

  /** The last line of a head. */
  lemma LastLine(line: Bytes)
    requires PlainLine(line)
    ensures Find(CRLFCRLF, line + CRLF + CRLF) == Some(|line|)
  {
    var s := line + CRLF + CRLF;
    assert s[|line|..|line| + 4] == CRLFCRLF;
    forall j | 0 <= j < |line| ensures !Occurs(CRLFCRLF, s, j) {
      NotInLine(line, CRLF, j);
    }
    FirstOccursUnique(CRLFCRLF, s, |line|);
  }

  /** One line in front of a head moves the end of the head by the length of the line. */
  lemma FirstLine(line: Bytes, rest: Bytes)
    requires PlainLine(line) && rest != [] && rest[0] != CR && Find(CRLFCRLF, rest).Some?
    ensures Find(CRLFCRLF, line + CRLF + rest) == Some(|line| + 2 + Find(CRLFCRLF, rest).value)
  {
    var s, n, i := line + CRLF + rest, |line| + 2, Find(CRLFCRLF, rest).value;
    FindMeaning(CRLFCRLF, rest);
    forall j | 0 <= j < n + i ensures !Occurs(CRLFCRLF, s, j) {
      if j < |line| {
        NotInLine(line, rest, j);
      } else if j < n {
        NotAtBreak(line, rest, j);
      } else {
        BehindLine(line, rest, j - n);
      }
    }
    BehindLine(line, rest, i);
    FirstOccursUnique(CRLFCRLF, s, n + i);
  }

  /** A head of plain lines has its only CRLFCRLF at the very end. */
  lemma {:induction false} HeadEndsOnce(lines: seq<Bytes>)
    requires lines != [] && forall i | 0 <= i < |lines| :: PlainLine(lines[i])
    ensures HeaderEnd(HeadText(lines)) == Some(|HeadText(lines)|)
  {
    var rest := HeadText(lines[1..]);
    if |lines| > 1 {
      HeadEndsOnce(lines[1..]);
      assert lines[1..][0] == lines[1];
      assert rest[0] == lines[1][0];
      FirstLine(lines[0], rest);
    } else {
      LastLine(lines[0]);
    }
  }

  lemma PlainParts(a: Bytes, b: Bytes)
    requires PlainLine(a) && CR !in b
    ensures PlainLine(a + b)
  {
  }

  lemma LiteralsArePlain()
    ensures PlainLine(Ascii("CONNECT ")) && SPACE !in Ascii("CONNECT")
    ensures PlainLine(Ascii(" HTTP/1.1")) && SPACE !in Ascii("HTTP/1.1")
    ensures PlainLine(Ascii("Host: "))
    ensures PlainLine(Ascii("Proxy-Connection: Keep-Alive"))
    ensures PlainLine(Ascii("Connection: Keep-Alive"))
    ensures PlainLine(Ascii("Proxy-Authorization: "))
  {
  }

  lemma HeadTextCons(line: Bytes, lines: seq<Bytes>)
    ensures HeadText([line] + lines) == line + CRLF + HeadText(lines)
  {
    assert ([line] + lines)[1..] == lines;
  }

  lemma HeadTextOfFour(a: Bytes, b: Bytes, c: Bytes, d: Bytes, more: seq<Bytes>)
    ensures HeadText([a, b, c, d] + more) == a + CRLF + b + CRLF + c + CRLF + d + CRLF + HeadText(more)
  {
    HeadTextCons(d, more);
    HeadTextCons(c, [d] + more);
    HeadTextCons(b, [c] + ([d] + more));
    HeadTextCons(a, [b] + ([c] + ([d] + more)));
    assert [a, b, c, d] + more == [a] + ([b] + ([c] + ([d] + more)));
  }

  lemma HeadTextOfLast(last: Option<Bytes>)
    ensures HeadText(if last.Some? then [last.value] else []) == if last.Some? then last.value + CRLF + CRLF else CRLF
  {
    if last.Some? {
      HeadTextCons(last.value, []);
      assert [last.value] + [] == [last.value];
    }
  }

  lemma RequestUnrolled(destination: Endpoint, authorization: Option<Bytes>)
    ensures ConnectRequest(destination, authorization) ==
            if authorization.Some?
            then FixedPart(destination) + (Ascii("Proxy-Authorization: ") + authorization.value) + CRLF + CRLF
            else FixedPart(destination) + CRLF
  {
    var last := if authorization.Some? then Some(Ascii("Proxy-Authorization: ") + authorization.value) else None;
    HeadTextOfLast(last);
    HeadTextOfFour(RequestLine(destination), Ascii("Host: ") + Display(destination),
                   Ascii("Proxy-Connection: Keep-Alive"), Ascii("Connection: Keep-Alive"),
                   if last.Some? then [last.value] else []);
    if last.Some? {
      AppendAssociates(FixedPart(destination), last.value);
    }
  }

  /** The text of a request, line by line. */
  lemma RequestText(destination: Endpoint, authorization: Option<Bytes>)
    ensures var name := Display(destination);
            ConnectRequest(destination, authorization) ==
            Ascii("CONNECT ") + name + Ascii(" HTTP/1.1") + Ascii("\r\n")
            + Ascii("Host: ") + name + Ascii("\r\n")
            + Ascii("Proxy-Connection: Keep-Alive") + Ascii("\r\n")
            + Ascii("Connection: Keep-Alive") + Ascii("\r\n")
            + (if authorization.Some? then Ascii("Proxy-Authorization: ") + authorization.value + Ascii("\r\n") else [])
            + Ascii("\r\n")
  {
    RequestUnrolled(destination, authorization);
    assert Ascii("\r\n") == CRLF;
    var name, host := Display(destination), Ascii("Host: ");
    Reassociate(RequestLine(destination) + CRLF, host, name, CRLF);
    if authorization.Some? {
      Reassociate(FixedPart(destination), Ascii("Proxy-Authorization: "), authorization.value, CRLF);
    } else {
      assert FixedPart(destination) + [] == FixedPart(destination);
    }
  }

  lemma Reassociate(a: Bytes, b: Bytes, c: Bytes, d: Bytes)
    ensures a + (b + c) + d == a + b + c + d == a + (b + c + d)
  {
  }

  lemma AppendAssociates(front: Bytes, last: Bytes)
    ensures front + (last + CRLF + CRLF) == front + last + CRLF + CRLF
  {
  }

  /** The endpoint a request head asks for: the second word of its first line. */
  function RequestedEndpoint(request: Bytes): Option<Endpoint> {
    match LineWithin(request, |request|)
    case None => None
    case Some(line) =>
      var words := Split(SPACE, line);
      if |words| != 3 || words[0] != Ascii("CONNECT") then None
      else
        match Parse(words[1])
        case Err(_) => None
        case Ok(e) => Some(e)
  }

  lemma SplitWhole(word: Bytes)
    requires SPACE !in word
    ensures Split(SPACE, word) == [word]
  {
  }

  lemma ThreeWords(a: Bytes, b: Bytes, c: Bytes)
    requires SPACE !in a && SPACE !in b && SPACE !in c
    ensures Split(SPACE, a + [SPACE] + (b + [SPACE] + c)) == [a, b, c]
  {
    SplitWhole(c);
    SplitFirst(SPACE, b, c);
    SplitFirst(SPACE, a, b + [SPACE] + c);
  }

  lemma RequestLineInWords(name: Bytes)
    ensures Ascii("CONNECT ") + name + Ascii(" HTTP/1.1")
            == Ascii("CONNECT") + [SPACE] + (name + [SPACE] + Ascii("HTTP/1.1"))
  {
    assert Ascii("CONNECT ") == Ascii("CONNECT") + [SPACE];
    assert Ascii(" HTTP/1.1") == [SPACE] + Ascii("HTTP/1.1");
  }

  lemma WordsOfRequestLine(destination: Endpoint)
    requires Acceptable(destination)
    ensures Split(SPACE, RequestLine(destination)) == [Ascii("CONNECT"), Display(destination), Ascii("HTTP/1.1")]
  {
    LiteralsArePlain();
    DisplayIsOneWord(destination);
    RequestLineInWords(Display(destination));
    ThreeWords(Ascii("CONNECT"), Display(destination), Ascii("HTTP/1.1"));
  }

  lemma LinesArePlain(destination: Endpoint, authorization: Option<Bytes>)
    requires Acceptable(destination)
    requires authorization.Some? ==> CR !in authorization.value
    ensures forall i | 0 <= i < |RequestLines(destination, authorization)| ::
              PlainLine(RequestLines(destination, authorization)[i])
  {
    LiteralsArePlain();
    DisplayIsOneWord(destination);
    RequestLineIsPlain(destination);
    PlainParts(Ascii("Host: "), Display(destination));
    if authorization.Some? {
      PlainParts(Ascii("Proxy-Authorization: "), authorization.value);
    }
  }

  lemma RequestLineIsPlain(destination: Endpoint)
    requires CR !in Display(destination)
    ensures PlainLine(RequestLine(destination))
  {
    LiteralsArePlain();
    PlainParts(Ascii("CONNECT "), Display(destination));
    PlainParts(Ascii("CONNECT ") + Display(destination), Ascii(" HTTP/1.1"));
  }

  /** Every request sent is one complete head, whatever is sent after it: no destination and no token can
      end it early or run on into what follows. Read back, it asks for the same destination exactly when
      that destination prints unambiguously. */
  lemma RequestIsOneHead(destination: Endpoint, authorization: Option<Bytes>, after: Bytes)
    requires Acceptable(destination)
    requires authorization.Some? ==> CR !in authorization.value
    ensures var request := ConnectRequest(destination, authorization);
            && HeaderEnd(request + after) == Some(|request|)
            && (RequestedEndpoint(request) == Some(destination) <==> Printable(destination))
  {
    RequestHasItsHead(destination, authorization);
    RequestReadsBack(destination, authorization);
    HeadThenMore(ConnectRequest(destination, authorization), after);
  }

  lemma HeadThenMore(head: Bytes, after: Bytes)
    requires HeaderEnd(head) == Some(|head|)
    ensures HeaderEnd(head + after) == Some(|head|)
  {
    FindInPrefix(CRLFCRLF, head, after);
  }

  lemma RequestHasItsHead(destination: Endpoint, authorization: Option<Bytes>)
    requires Acceptable(destination)
    requires authorization.Some? ==> CR !in authorization.value
    ensures HeaderEnd(ConnectRequest(destination, authorization)) == Some(|ConnectRequest(destination, authorization)|)
  {
    LinesArePlain(destination, authorization);
    HeadEndsOnce(RequestLines(destination, authorization));
  }

  lemma RequestReadsBack(destination: Endpoint, authorization: Option<Bytes>)
    requires Acceptable(destination)
    requires authorization.Some? ==> CR !in authorization.value
    ensures RequestedEndpoint(ConnectRequest(destination, authorization)) == Some(destination)
            <==> Printable(destination)
  {
    LinesArePlain(destination, authorization);
    StartsWithRequestLine(destination, authorization);
    FirstLineOfHead(RequestLines(destination, authorization));
    ReadsBackFrom(ConnectRequest(destination, authorization), RequestLine(destination), destination);
  }

  lemma StartsWithRequestLine(destination: Endpoint, authorization: Option<Bytes>)
    ensures RequestLines(destination, authorization)[0] == RequestLine(destination)
  {
  }

  /** A text with the request line of a destination reads back as that destination if it can. */
  lemma ReadsBackFrom(request: Bytes, line: Bytes, destination: Endpoint)
    requires Acceptable(destination) && line == RequestLine(destination)
    requires LineWithin(request, |request|) == Some(line)
    ensures RequestedEndpoint(request) == Some(destination) <==> Printable(destination)
  {
    WordsOfRequestLine(destination);
    DisplayThenParse(destination);
  }

  lemma FirstLineOfHead(lines: seq<Bytes>)
    requires lines != [] && PlainLine(lines[0])
    ensures LineWithin(HeadText(lines), |HeadText(lines)|) == Some(lines[0])
  {
    NoBreakBefore(lines[0], []);
    assert lines[0] + [] == lines[0];
    LineAt(lines[0], HeadText(lines[1..]), |HeadText(lines)|);
  }
}
