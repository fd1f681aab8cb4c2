/** Parsed HTTP/1 heads and the three questions the proxy asks of a response (`src/http1.rs`). */
module Messages {
  import opened Wire
  import opened Numerals

  datatype Header = Header(name: Bytes, value: Bytes)

  datatype RequestHead = RequestHead(verb: Bytes, target: Bytes)

  datatype ResponseHead = ResponseHead(version: nat, status: nat, headers: seq<Header>)

  datatype HttpError =
    | Io
    | UnexpectedEof
    | HeaderTooLarge
    | Parse
    | InvalidContentLength
    | ConflictingContentLength
    | InvalidChunkedBody

  /** The head parser: any function of the head bytes. */
  type ResponseParser = Bytes -> Option<ResponseHead>
  type RequestParser = Bytes -> Option<RequestHead>

  /** `header_values(name)`. */
  function Values(headers: seq<Header>, name: Bytes): seq<Bytes> {
    if headers == [] then []
    else (if EqIgnoreCase(headers[0].name, name) then [headers[0].value] else []) + Values(headers[1..], name)
  }

  predicate AnyPart(parts: seq<Bytes>, token: Bytes) {
    parts != [] && (EqIgnoreCase(Trim(parts[0]), token) || AnyPart(parts[1..], token))
  }

  predicate AnyValue(values: seq<Bytes>, token: Bytes) {
    values != [] && ((Utf8(values[0]) && AnyPart(Split(44, values[0]), token)) || AnyValue(values[1..], token))
  }

  /** Whether some readable value of the header lists `token` between its commas. */
  predicate Lists(head: ResponseHead, name: Bytes, token: Bytes) {
    AnyValue(Values(head.headers, name), token)
  }

  predicate ConnectionClose(head: ResponseHead) {
    || Lists(head, Ascii("connection"), Ascii("close"))
    || (head.version == 0 && !Lists(head, Ascii("connection"), Ascii("keep-alive")))
  }

  predicate IsChunked(head: ResponseHead) {
    Lists(head, Ascii("transfer-encoding"), Ascii("chunked"))
  }

  // ---------------------------------------------------------------------------------------------
  // What the headers say

  /** Header `i` has this name, in any case, and a readable value whose comma-separated part `j` is the token, in
      any case and with any white space around it. */
  ghost predicate MentionsAt(headers: seq<Header>, i: int, j: int, name: Bytes, token: Bytes) {
    && 0 <= i < |headers| && EqIgnoreCase(headers[i].name, name) && Utf8(headers[i].value)
    && 0 <= j < |Split(',' as int, headers[i].value)|
    && EqIgnoreCase(Trim(Split(',' as int, headers[i].value)[j]), token)
  }

  ghost predicate Mentions(head: ResponseHead, name: Bytes, token: Bytes) {
    exists i, j :: MentionsAt(head.headers, i, j, name, token)
  }

  /** Some header has this name, in any case. */
  ghost predicate Has(head: ResponseHead, name: Bytes) {
    exists i | 0 <= i < |head.headers| :: EqIgnoreCase(head.headers[i].name, name)
  }

  lemma {:induction false} AnyPartMeaning(parts: seq<Bytes>, token: Bytes)
    ensures AnyPart(parts, token) <==> exists j | 0 <= j < |parts| :: EqIgnoreCase(Trim(parts[j]), token)
  {
    if parts != [] {
      var rest := parts[1..];
      AnyPartMeaning(rest, token);
      assert forall j | 0 < j < |parts| :: parts[j] == rest[j - 1];
      assert forall j | 0 <= j < |rest| :: rest[j] == parts[j + 1];
    }
  }

  lemma MentionsLater(headers: seq<Header>, i: int, j: int, name: Bytes, token: Bytes)
    requires headers != [] && 0 < i
    ensures MentionsAt(headers, i, j, name, token) <==> MentionsAt(headers[1..], i - 1, j, name, token)
  {
  }

  lemma {:induction false} AnyValueMeaning(headers: seq<Header>, name: Bytes, token: Bytes)
    ensures AnyValue(Values(headers, name), token) <==> exists i, j :: MentionsAt(headers, i, j, name, token)
  {
    if headers != [] {
      var rest, value := headers[1..], headers[0].value;
      AnyValueMeaning(rest, name, token);
      AnyPartMeaning(Split(',' as int, value), token);
      FirstValue(headers, name, token);
      forall i, j | MentionsAt(rest, i, j, name, token) ensures MentionsAt(headers, i + 1, j, name, token) {
        MentionsLater(headers, i + 1, j, name, token);
      }
      forall i, j | MentionsAt(headers, i, j, name, token) && 0 < i ensures MentionsAt(rest, i - 1, j, name, token) {
        MentionsLater(headers, i, j, name, token);
      }
      if EqIgnoreCase(headers[0].name, name) && Utf8(value) && AnyPart(Split(',' as int, value), token) {
        var j :| 0 <= j < |Split(',' as int, value)| && EqIgnoreCase(Trim(Split(',' as int, value)[j]), token);
        assert MentionsAt(headers, 0, j, name, token);
      }
    }
  }

  lemma FirstValue(headers: seq<Header>, name: Bytes, token: Bytes)
    requires headers != []
    ensures AnyValue(Values(headers, name), token) <==>
            || (&& EqIgnoreCase(headers[0].name, name) && Utf8(headers[0].value)
                && AnyPart(Split(',' as int, headers[0].value), token))
            || AnyValue(Values(headers[1..], name), token)
  {
    var rest := Values(headers[1..], name);
    assert ([headers[0].value] + rest)[1..] == rest && [] + rest == rest;
  }

  /** A response closes its connection exactly if a Connection header lists `close`, or its version is HTTP/1.0 and
      none lists `keep-alive`. */
  lemma ConnectionCloseMeaning(head: ResponseHead)
    ensures ConnectionClose(head) <==>
            || Mentions(head, Ascii("connection"), Ascii("close"))
            || (head.version == 0 && !Mentions(head, Ascii("connection"), Ascii("keep-alive")))
  {
    AnyValueMeaning(head.headers, Ascii("connection"), Ascii("close"));
    AnyValueMeaning(head.headers, Ascii("connection"), Ascii("keep-alive"));
  }

  lemma IsChunkedMeaning(head: ResponseHead)
    ensures IsChunked(head) <==> Mentions(head, Ascii("transfer-encoding"), Ascii("chunked"))
  {
    AnyValueMeaning(head.headers, Ascii("transfer-encoding"), Ascii("chunked"));
  }

  // ---------------------------------------------------------------------------------------------
  // Content-Length

  /** One Content-Length value, `None` if it is not a number. */
  function LengthValue(value: Bytes): Option<nat> {
    if Utf8(value) then ParseUint(Trim(value), 10, USIZE_MAX) else None
  }

  /** The first fault in the values, given the length agreed on so far. */
  function AgreedLength(values: seq<Bytes>, agreed: Option<nat>): Result<Option<nat>, HttpError> {
    if values == [] then Ok(agreed)
    else
      match LengthValue(values[0])
      case None => Err(InvalidContentLength)
      case Some(n) =>
        if agreed.Some? && agreed.value != n then Err(ConflictingContentLength)
        else AgreedLength(values[1..], Some(n))
  }

  function ContentLength(head: ResponseHead): Result<Option<nat>, HttpError> {
    AgreedLength(Values(head.headers, Ascii("content-length")), None)
  }

  /** A length is reported exactly when there is a value and all values are that same number. */
  lemma {:induction false} AgreedLengthMeaning(values: seq<Bytes>, agreed: Option<nat>, n: nat)
    ensures AgreedLength(values, agreed) == Ok(Some(n)) <==>
            && (values != [] || agreed == Some(n))
            && (agreed.Some? ==> agreed.value == n)
            && forall i | 0 <= i < |values| :: LengthValue(values[i]) == Some(n)
    ensures AgreedLength(values, agreed) == Ok(None) <==> values == [] && agreed.None?
  {
    if values != [] {
      var rest := values[1..];
      var first := LengthValue(values[0]);
      if first.Some? {
        AgreedLengthMeaning(rest, first, n);
      }
      assert forall i | 0 <= i < |rest| :: rest[i] == values[i + 1];
      assert forall i | 0 < i < |values| :: values[i] == rest[i - 1];
    }
  }

  /** The first fault in the values: one that is no number, or one that differs from those before it. */
  ghost predicate FaultAt(values: seq<Bytes>, agreed: Option<nat>, i: int, e: HttpError) {
    && 0 <= i < |values|
    && (forall j | 0 <= j < i :: LengthValue(values[j]).Some? && LengthValue(values[j]) == LengthValue(values[0]))
    && (agreed.Some? && i > 0 ==> LengthValue(values[0]) == agreed)
    && var before := if i > 0 then LengthValue(values[0]) else agreed;
       match LengthValue(values[i])
       case None => e == InvalidContentLength
       case Some(n) => e == ConflictingContentLength && before.Some? && before.value != n
  }

  lemma {:induction false} AgreedLengthFault(values: seq<Bytes>, agreed: Option<nat>, e: HttpError)
    requires AgreedLength(values, agreed) == Err(e)
    ensures exists i :: FaultAt(values, agreed, i, e)
  {
    var first, rest := LengthValue(values[0]), values[1..];
    if first.Some? && !(agreed.Some? && agreed.value != first.value) {
      AgreedLengthFault(rest, first, e);
      var i :| FaultAt(rest, first, i, e);
      assert forall j | 0 < j < |values| :: values[j] == rest[j - 1];
      assert FaultAt(values, agreed, i + 1, e);
    } else {
      assert FaultAt(values, agreed, 0, e);
    }
  }

  /** A length is announced exactly if there is a Content-Length header and every one of them has that number for its
      value; and none is announced exactly if there is no such header. */
  lemma ContentLengthMeaning(head: ResponseHead, n: nat)
    ensures ContentLength(head) == Ok(Some(n)) <==>
            && Has(head, Ascii("content-length"))
            && AllLengths(head.headers, Ascii("content-length"), n)
    ensures ContentLength(head) == Ok(None) <==> !Has(head, Ascii("content-length"))
  {
    AllValuesMeaning(head.headers, Ascii("content-length"), n);
    AgreedLengthMeaning(Values(head.headers, Ascii("content-length")), None, n);
  }

  /** Every header of this name has that number for its value. */
  ghost predicate AllLengths(headers: seq<Header>, name: Bytes, n: nat) {
    forall i | 0 <= i < |headers| && EqIgnoreCase(headers[i].name, name) :: LengthValue(headers[i].value) == Some(n)
  }

  lemma FirstLength(headers: seq<Header>, name: Bytes, n: nat)
    requires headers != []
    ensures AllLengths(headers, name, n) <==>
            && (EqIgnoreCase(headers[0].name, name) ==> LengthValue(headers[0].value) == Some(n))
            && AllLengths(headers[1..], name, n)
  {
    var rest := headers[1..];
    assert forall i | 0 < i < |headers| :: headers[i] == rest[i - 1];
    assert forall i | 0 <= i < |rest| :: rest[i] == headers[i + 1];
  }

  ghost predicate AllAre(values: seq<Bytes>, n: nat) {
    forall i | 0 <= i < |values| :: LengthValue(values[i]) == Some(n)
  }

  lemma AllAreCons(v: Bytes, values: seq<Bytes>, n: nat)
    ensures AllAre([v] + values, n) <==> LengthValue(v) == Some(n) && AllAre(values, n)
  {
    var all := [v] + values;
    assert all[0] == v && forall i | 0 <= i < |values| :: values[i] == all[i + 1];
  }

  lemma {:induction false} AllValuesMeaning(headers: seq<Header>, name: Bytes, n: nat)
    ensures Values(headers, name) == [] <==> forall i | 0 <= i < |headers| :: !EqIgnoreCase(headers[i].name, name)
    ensures AllAre(Values(headers, name), n) <==> AllLengths(headers, name, n)
  {
    if headers != [] {
      var rest, values := headers[1..], Values(headers[1..], name);
      AllValuesMeaning(rest, name, n);
      FirstLength(headers, name, n);
      AllAreCons(headers[0].value, values, n);
      assert forall i | 0 < i < |headers| :: headers[i] == rest[i - 1];
      assert [] + values == values;
    }
  }

  /** Such a value is readable text that trims to a decimal number below 2^64. */
  lemma LengthValueMeaning(value: Bytes, n: nat)
    ensures LengthValue(value) == Some(n) <==>
            Utf8(value) && n < 0x1_0000_0000_0000_0000 && Reads(Trim(value), n, 10)
  {
    ParseUintMeaning(Trim(value), 10, USIZE_MAX, n);
  }

  /** In particular a printed number is read back, with white space around it or not. */
  lemma PrintedLength(n: nat, pad: Bytes)
    requires n < 0x1_0000_0000_0000_0000 && forall c | c in pad :: c == ' ' as int || c == '\t' as int
    ensures LengthValue(Print(n, 10) + pad) == Some(n)
  {
    PrintsDigits(n, 10);
    PaddedWord(Print(n, 10), pad);
    ParseOfPrint(n, 10, USIZE_MAX);
  }

  lemma PaddedWord(word: Bytes, pad: Bytes)
    requires word != [] && forall c | c in word :: c < 0x80 && !AsciiSpace(c)
    requires forall c | c in pad :: AsciiSpace(c)
    ensures Utf8(word + pad) && Trim(word + pad) == word
  {
    AsciiThenUtf8(word + pad, []);
    assert word + pad + [] == word + pad;
    TrimPadded(word, pad);
  }

  /** `content_length`: the loop over the header values. */
  method ReadContentLength(head: ResponseHead) returns (r: Result<Option<nat>, HttpError>)
    ensures r == ContentLength(head)
    ensures r.Err? ==> r.error == InvalidContentLength || r.error == ConflictingContentLength
  {
    var values := Values(head.headers, Ascii("content-length"));
    var parsed: Option<nat> := None;
    var i := 0;
    while i < |values|
      invariant 0 <= i <= |values|
      invariant AgreedLength(values, None) == AgreedLength(values[i..], parsed)
    {
      var value := LengthValue(values[i]);
      if value.None? {
        return Err(InvalidContentLength);
      }
      if parsed.Some? && parsed.value != value.value {
        return Err(ConflictingContentLength);
      }
      assert values[i..][1..] == values[i + 1..];
      parsed := value;
      i := i + 1;
    }
    r := Ok(parsed);
  }
}
