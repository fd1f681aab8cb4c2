/** The `host:port` grammar of CONNECT targets and of the upstream address (`src/config.rs`). */
module Endpoints {
  import opened Wire
  import opened Numerals

  const COLON: byte := 58
  const OPEN: byte := 91
  const CLOSE: byte := 93
  const SLASH: byte := 47
  const AT: byte := 64
  const U16_MAX: nat := 65535

  datatype Endpoint = Endpoint(host: Bytes, port: nat)

  datatype EndpointError =
    | Empty
    | EmptyHost
    | InvalidHost
    | MissingPort
    | UnbracketedIpv6
    | InvalidIpv6
    | ZeroPort
    | InvalidPort

  /** Bytes refused in a host: ASCII white space, `/` and `@`. */
  predicate Forbidden(c: byte) {
    c == 9 || c == 10 || c == 12 || c == 13 || c == 32 || c == SLASH || c == AT
  }

  /** What every accepted endpoint looks like. */
  predicate Acceptable(e: Endpoint) {
    && e.host != []
    && (forall c | c in e.host :: !Forbidden(c))
    && 1 <= e.port <= U16_MAX
  }

  function SplitHostPort(input: Bytes): Result<(Bytes, Bytes), EndpointError> {
    if input != [] && input[0] == OPEN then
      var bracketed := input[1..];
      match IndexOf(CLOSE, bracketed)
      case None => Err(InvalidIpv6)
      case Some(closing) =>
        var suffix := bracketed[closing + 1..];
        if suffix != [] && suffix[0] == COLON then Ok((bracketed[..closing], suffix[1..]))
        else Err(MissingPort)
    else
      match LastIndexOf(COLON, input)
      case None => Err(MissingPort)
      case Some(colon) =>
        if COLON in input[..colon] then Err(UnbracketedIpv6)
        else Ok((input[..colon], input[colon + 1..]))
  }

  /** `Endpoint::from_str`. */
  function Parse(input: Bytes): (r: Result<Endpoint, EndpointError>)
    ensures r.Ok? ==> Acceptable(r.value)
  {
    if input == [] then Err(Empty)
    else
      match SplitHostPort(input)
      case Err(e) => Err(e)
      case Ok((host, port)) =>
        if host == [] then Err(EmptyHost)
        else if exists c | c in host :: Forbidden(c) then Err(InvalidHost)
        else
          match ParseUint(port, 10, U16_MAX)
          case None => Err(InvalidPort)
          case Some(p) => if p == 0 then Err(ZeroPort) else Ok(Endpoint(host, p))
  }

  /** `impl Display for Endpoint`. */
  function Display(e: Endpoint): Bytes {
    if COLON in e.host then [OPEN] + e.host + [CLOSE, COLON] + Print(e.port, 10)
    else e.host + [COLON] + Print(e.port, 10)
  }

  /** The endpoints whose printed form reads back: bracketing must not be confused by the host. */
  predicate Printable(e: Endpoint) {
    if COLON in e.host then CLOSE !in e.host else e.host != [] && e.host[0] != OPEN
  }

  lemma PortHasNoColon(n: nat)
    ensures COLON !in Print(n, 10) && CLOSE !in Print(n, 10)
  {
    PrintsDigits(n, 10);
  }

  lemma SplitBracketed(host: Bytes, port: Bytes)
    requires CLOSE !in host
    ensures SplitHostPort([OPEN] + host + [CLOSE, COLON] + port) == Ok((host, port))
  {
    var text := [OPEN] + host + [CLOSE, COLON] + port;
    assert text[1..] == host + [CLOSE] + ([COLON] + port);
    IndexOfAt(CLOSE, host, [COLON] + port);
    assert text[1..][..|host|] == host && text[1..][|host| + 1..] == [COLON] + port;
  }

  /** Where `SplitHostPort` cuts a printed endpoint. */
  lemma SplitOfDisplay(e: Endpoint)
    requires Printable(e)
    ensures SplitHostPort(Display(e)) == Ok((e.host, Print(e.port, 10)))
  {
    var port := Print(e.port, 10);
    PortHasNoColon(e.port);
    var text := Display(e);
    if COLON in e.host {
      SplitBracketed(e.host, port);
    } else {
      LastIndexOfAt(COLON, e.host, port);
      assert text[..|e.host|] == e.host && text[|e.host| + 1..] == port;
    }
  }

  /** An unbracketed host that starts with `[` and holds no `]` prints as text without a closing bracket. */
  lemma SplitOfUnclosed(e: Endpoint)
    requires COLON !in e.host && e.host != [] && e.host[0] == OPEN && CLOSE !in e.host
    ensures SplitHostPort(Display(e)) == Err(InvalidIpv6)
  {
    PortHasNoColon(e.port);
    var rest := Display(e)[1..];
    assert rest == e.host[1..] + [COLON] + Print(e.port, 10);
    assert forall c | c in rest :: c in e.host || c == COLON || c in Print(e.port, 10);
  }

  /** A host with a `]` inside cannot survive printing: the first `]` closes the bracket too early. */
  lemma SplitOfConfused(e: Endpoint)
    requires e.host != [] && !Printable(e)
    ensures SplitHostPort(Display(e)).Ok? ==> SplitHostPort(Display(e)).value.0 != e.host
  {
    var bracketed := Display(e)[1..];
    if IndexOf(CLOSE, bracketed).Some? {
      var closing := IndexOf(CLOSE, bracketed).value;
      if COLON in e.host {
        var k := IndexOf(CLOSE, e.host).value;
        assert bracketed[k] == CLOSE;
        assert closing <= k < |e.host|;
      } else {
        assert bracketed[|e.host| - 1] == COLON;
        assert closing >= |e.host| ==> bracketed[..closing][|e.host| - 1] == COLON;
      }
    }
  }

  /** Reading back what was printed, for every endpoint whatsoever: it gives the same endpoint exactly
      when the host is one `Display` does not confuse. */
  lemma DisplayThenParse(e: Endpoint)
    requires Acceptable(e)
    ensures Parse(Display(e)) == Ok(e) <==> Printable(e)
  {
    if Printable(e) {
      SplitOfDisplay(e);
      ParseOfPrint(e.port, 10, U16_MAX);
    } else {
      SplitOfConfused(e);
    }
  }

  /** Parsing never accepts a host with both `:` and `]`, nor an unbracketed host that starts with `[`. */
  lemma ParsedHost(input: Bytes)
    requires Parse(input).Ok?
    ensures var e := Parse(input).value;
            COLON in e.host || e.host[0] == OPEN ==> CLOSE !in e.host
  {
    if input[0] != OPEN {
      var colon := LastIndexOf(COLON, input).value;
      assert input[..colon][0] == input[0];
    }
  }

  /** The round trip of parsed endpoints with its exact condition: it succeeds unless the host starts
      with `[` and contains no `:`, and in that case printing gives a text that is rejected. */
  lemma ParseDisplayParse(input: Bytes)
    requires Parse(input).Ok?
    ensures var e := Parse(input).value;
            && (Parse(Display(e)) == Ok(e) <==> !(e.host[0] == OPEN && COLON !in e.host))
            && (e.host[0] == OPEN && COLON !in e.host ==> Parse(Display(e)) == Err(InvalidIpv6))
  {
    var e := Parse(input).value;
    ParsedHost(input);
    DisplayThenParse(e);
    if e.host[0] == OPEN && COLON !in e.host {
      SplitOfUnclosed(e);
    }
  }

  /** The whole failing family: every `[[name]:port` without a colon in the name is accepted, and
      what it prints as, `[name:port`, is not. */
  lemma DoubleBracketFails(name: Bytes, port: nat)
    requires Acceptable(Endpoint([OPEN] + name, port)) && COLON !in name && CLOSE !in name
    ensures var e := Endpoint([OPEN] + name, port);
            && Parse([OPEN] + e.host + [CLOSE, COLON] + Print(port, 10)) == Ok(e)
            && Parse(Display(e)) == Err(InvalidIpv6)
  {
    var e := Endpoint([OPEN] + name, port);
    SplitBracketed(e.host, Print(port, 10));
    ParseOfPrint(port, 10, U16_MAX);
    SplitOfUnclosed(e);
  }

  /** One member of it: `[[a]:80`. */
  lemma RoundTripFails()
    ensures exists input: Bytes :: Parse(input).Ok? && Parse(Display(Parse(input).value)).Err?
  {
    var name: Bytes := [97];
    DoubleBracketFails(name, 80);
  }

  /** No byte that could end or split a request line ever reaches a printed endpoint. */
  lemma DisplayIsOneWord(e: Endpoint)
    requires Acceptable(e)
    ensures Display(e) != []
    ensures forall c | c in Display(e) :: !Forbidden(c)
  {
    PrintsDigits(e.port, 10);
  }

  // ---------------------------------------------------------------------------------------------
  // The accepted texts

  /** No white space, `/` or `@`. */
  ghost predicate CleanHost(host: Bytes) {
    host != [] && forall c | c in host ::
      c !in {' ' as int, '\t' as int, '\n' as int, '\r' as int, 12, '/' as int, '@' as int}
  }

  /** `[host]:port`, where the host holds no `]`. */
  ghost predicate Bracketed(input: Bytes, host: Bytes, port: Bytes) {
    input == ['[' as int] + host + [']' as int, ':' as int] + port && ']' as int !in host
  }

  /** `host:port`, where neither part holds a `:` and the text does not start with `[`. */
  ghost predicate Plain(input: Bytes, host: Bytes, port: Bytes) {
    input == host + [':' as int] + port && ':' as int !in host && ':' as int !in port && input[0] != '[' as int
  }

  lemma SplitPlain(input: Bytes, host: Bytes, port: Bytes)
    requires Plain(input, host, port)
    ensures SplitHostPort(input) == Ok((host, port))
  {
    LastIndexOfAt(COLON, host, port);
    assert input[..|host|] == host && input[|host| + 1..] == port;
  }

  /** Where a text is cut: only texts of the two forms are. */
  lemma SplitMeansForm(input: Bytes)
    requires input != [] && SplitHostPort(input).Ok?
    ensures var (host, port) := SplitHostPort(input).value; Bracketed(input, host, port) || Plain(input, host, port)
  {
    var (host, port) := SplitHostPort(input).value;
    if input[0] == OPEN {
      var closing := IndexOf(CLOSE, input[1..]).value;
      assert input == [OPEN] + host + [CLOSE, COLON] + port;
      assert forall c | c in host :: c != CLOSE;
    } else {
      var colon := LastIndexOf(COLON, input).value;
      assert input == host + [COLON] + port;
      assert forall i | 0 <= i < |port| :: port[i] == input[colon + 1 + i];
    }
  }

  /** The accepted language: `[host]:port` and `host:port` with a clean host and a decimal port from 1 to 65535. */
  ghost predicate Denotes(input: Bytes, e: Endpoint, port: Bytes) {
    && (Bracketed(input, e.host, port) || Plain(input, e.host, port))
    && CleanHost(e.host) && Reads(port, e.port, 10) && 1 <= e.port <= 65535
  }

  lemma CleanMeaning(host: Bytes)
    requires host != []
    ensures CleanHost(host) <==> forall c | c in host :: !Forbidden(c)
  {
  }

  lemma ParseMeaning(input: Bytes, e: Endpoint)
    ensures Parse(input) == Ok(e) <==> exists port :: Denotes(input, e, port)
  {
    if Parse(input) == Ok(e) {
      SplitMeansForm(input);
      CleanMeaning(e.host);
      ParseUintMeaning(SplitHostPort(input).value.1, 10, U16_MAX, e.port);
      assert Denotes(input, e, SplitHostPort(input).value.1);
    }
    forall port | Denotes(input, e, port) ensures Parse(input) == Ok(e) {
      if Bracketed(input, e.host, port) {
        SplitBracketed(e.host, port);
      } else {
        SplitPlain(input, e.host, port);
      }
      CleanMeaning(e.host);
      ParseUintMeaning(port, 10, U16_MAX, e.port);
    }
  }

  /** Why a text is refused, in the order of the tests: its form, its host, its port. */
  lemma Refusals(input: Bytes)
    ensures Parse(input) == Err(Empty) <==> input == []
    ensures Parse(input) == Err(InvalidIpv6) <==> input != [] && input[0] == '[' as int && ']' as int !in input[1..]
    ensures Parse(input) == Err(MissingPort) <==>
            input != [] && if input[0] == '[' as int then ']' as int in input[1..] && !ColonBehindBracket(input)
                           else ':' as int !in input
    ensures Parse(input) == Err(UnbracketedIpv6) <==>
            && input != [] && input[0] != '[' as int
            && exists i, j | 0 <= i < j < |input| :: input[i] == input[j] == ':' as int
  {
    if input != [] && input[0] == OPEN && CLOSE in input[1..] {
      BehindBracket(input);
    }
    if input != [] && input[0] != OPEN && COLON in input {
      var colon := LastIndexOf(COLON, input).value;
      if COLON in input[..colon] {
        var i := IndexOf(COLON, input[..colon]).value;
        assert input[i] == input[colon] == ':' as int;
      }
      forall i, j | 0 <= i < j < |input| && input[i] == input[j] == ':' as int ensures COLON in input[..colon] {
        assert input[..colon][i] == COLON;
      }
    }
  }

  /** The first `]` is followed by a `:`. */
  ghost predicate ColonBehindBracket(input: Bytes) {
    exists host, rest :: Bracketed(input, host, rest)
  }

  lemma BehindBracket(input: Bytes)
    requires input != [] && input[0] == OPEN && CLOSE in input[1..]
    ensures SplitHostPort(input).Ok? <==> ColonBehindBracket(input)
  {
    if SplitHostPort(input).Ok? {
      SplitMeansForm(input);
      assert Bracketed(input, SplitHostPort(input).value.0, SplitHostPort(input).value.1);
    }
    forall host, rest | Bracketed(input, host, rest) ensures SplitHostPort(input).Ok? {
      SplitBracketed(host, rest);
    }
  }

  /** And once the form is right, for the first part that is not. */
  lemma RefusedParts(input: Bytes, host: Bytes, port: Bytes)
    requires Bracketed(input, host, port) || Plain(input, host, port)
    ensures Parse(input) == Err(EmptyHost) <==> host == []
    ensures Parse(input) == Err(InvalidHost) <==> host != [] && !CleanHost(host)
    ensures Parse(input) == Err(InvalidPort) <==>
            CleanHost(host) && forall n | 0 <= n <= 65535 :: !Reads(port, n, 10)
    ensures Parse(input) == Err(ZeroPort) <==> CleanHost(host) && Reads(port, 0, 10)
  {
    if Bracketed(input, host, port) {
      SplitBracketed(host, port);
    } else {
      SplitPlain(input, host, port);
    }
    if host != [] {
      CleanMeaning(host);
    }
    ParseUintMeaning(port, 10, U16_MAX, 0);
    var n := ParseUint(port, 10, U16_MAX);
    if n.Some? {
      ParseUintMeaning(port, 10, U16_MAX, n.value);
    } else {
      forall m | 0 <= m <= 65535 ensures !Reads(port, m, 10) {
        ParseUintMeaning(port, 10, U16_MAX, m);
      }
    }
  }

  /** The other round trip: printing a parsed endpoint gives the text back exactly if its port is written without
      leading zeros or a sign, and it has brackets exactly if its host holds a `:`. */
  lemma ParseThenDisplay(input: Bytes, e: Endpoint, port: Bytes)
    requires Denotes(input, e, port)
    ensures Display(e) == input <==>
            port == Print(e.port, 10) && (Bracketed(input, e.host, port) <==> ':' as int in e.host)
  {
    PortHasNoColon(e.port);
    var text := Print(e.port, 10);
    if COLON in e.host {
      assert !Plain(input, e.host, port);
      SamePort([OPEN] + e.host + [CLOSE, COLON], text, port);
    } else if Bracketed(input, e.host, port) {
      assert input[|e.host| + 1] == CLOSE;
      assert forall c | c in Display(e) :: c in e.host || c == COLON || c in text;
      assert CLOSE in input;
    } else {
      SamePort(e.host + [COLON], text, port);
    }
  }

  lemma SamePort(front: Bytes, a: Bytes, b: Bytes)
    ensures front + a == front + b <==> a == b
  {
    if front + a == front + b {
      assert (front + a)[|front|..] == a && (front + b)[|front|..] == b;
    }
  }
}
