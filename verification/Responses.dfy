/** Where each response begins on a connection that carries several of them. */
module Responses {
  import opened Wire
  import opened Messages
  import opened Chunked
  import opened Framing

  /** A response head and everything after it. */
  datatype Found = Found(head: ResponseHead, rest: Bytes)

  /** How a stream of responses is taken apart: finding the head it starts with, and skipping the body
      that follows a head. */
  datatype Rules = Rules(next: Bytes -> Option<Found>, skip: Found -> Option<Bytes>)

  /** The `k`-th response head of a whole stream, with what follows it: every earlier body is skipped
      by the framing its head announces. */
  function NthHead(s: Bytes, k: nat, rules: Rules): Option<Found> {
    if k == 0 then rules.next(s)
    else
      match NthHead(s, k - 1, rules)
      case None => None
      case Some(f) => NextHead(f, rules)
  }

  function NextHead(f: Found, rules: Rules): Option<Found> {
    match rules.skip(f)
    case None => None
    case Some(s) => rules.next(s)
  }

  /** Where the `k`-th head begins. */
  function HeadStart(s: Bytes, k: nat, rules: Rules): Option<Bytes> {
    if k == 0 then Some(s)
    else
      match NthHead(s, k - 1, rules)
      case None => None
      case Some(f) => rules.skip(f)
  }

  lemma HeadAtStart(s: Bytes, k: nat, rules: Rules)
    ensures NthHead(s, k, rules) ==
            match HeadStart(s, k, rules)
            case None => None
            case Some(x) => rules.next(x)
  {
  }

  /** Whatever the first rules find, the second find too. */
  ghost predicate Agree(rules: Rules, more: Rules) {
    && (forall s :: rules.next(s).Some? ==> more.next(s) == rules.next(s))
    && (forall f :: rules.skip(f).Some? ==> more.skip(f) == rules.skip(f))
  }

  lemma {:induction false} NthHeadAgrees(s: Bytes, k: nat, rules: Rules, more: Rules)
    requires Agree(rules, more) && NthHead(s, k, rules).Some?
    ensures NthHead(s, k, more) == NthHead(s, k, rules)
  {
    if k > 0 {
      NthHeadAgrees(s, k - 1, rules, more);
    }
  }

  lemma StartAgrees(s: Bytes, k: nat, rules: Rules, more: Rules)
    requires Agree(rules, more) && HeadStart(s, k, rules).Some?
    ensures HeadStart(s, k, more) == HeadStart(s, k, rules)
  {
    if k > 0 {
      NthHeadAgrees(s, k - 1, rules, more);
    }
  }

  // ---------------------------------------------------------------------------------------------
  // The rules the proxy reads by

  function HeadThen(s: Bytes, parse: ResponseParser, limit: nat): Option<Found> {
    match ParseHead(HeadWithin(s, limit), parse)
    case Err(_) => None
    case Ok(r) => Some(Found(r, s[HeaderEnd(s).value..]))
  }

  /** The rules for heads of at most `head` bytes, and chunked bodies with lines of at most `line`. */
  function Reading(parse: ResponseParser, head: nat, line: nat): Rules {
    Rules((s: Bytes) => HeadThen(s, parse, head), (f: Found) => AfterBody(FramingOf(f.head), f.rest, line))
  }

  /** The same with a cap on heads only: no line of a body can be longer than the stream. */
  function Capped(parse: ResponseParser, cap: nat): Rules {
    Rules((s: Bytes) => HeadThen(s, parse, cap), (f: Found) => AfterBody(FramingOf(f.head), f.rest, |f.rest|))
  }

  /** A larger cap finds the same head. */
  lemma HeadWithinMore(s: Bytes, parse: ResponseParser, limit: nat, more: nat)
    requires HeadThen(s, parse, limit).Some? && limit <= more
    ensures HeadThen(s, parse, more) == HeadThen(s, parse, limit)
  {
  }

  lemma BodyWithoutLimit(framing: BodyFraming, s: Bytes, limit: nat)
    requires AfterBody(framing, s, limit).Some?
    ensures AfterBody(framing, s, |s|) == AfterBody(framing, s, limit)
  {
    if framing.ChunkedBody? {
      DecodeWithoutLimit(s, limit);
    }
  }

  /** Limits never change which heads are found, only whether they are. */
  lemma LimitsAgree(parse: ResponseParser, head: nat, line: nat, cap: nat)
    requires head <= cap
    ensures Agree(Reading(parse, head, line), Capped(parse, cap))
  {
    forall s | HeadThen(s, parse, head).Some? ensures HeadThen(s, parse, cap) == HeadThen(s, parse, head) {
      HeadWithinMore(s, parse, head, cap);
    }
    forall f: Found | AfterBody(FramingOf(f.head), f.rest, line).Some?
      ensures AfterBody(FramingOf(f.head), f.rest, |f.rest|) == AfterBody(FramingOf(f.head), f.rest, line)
    {
      BodyWithoutLimit(FramingOf(f.head), f.rest, line);
    }
  }

  /** A reader that has come to the start of the `k`-th head: the head it finds is the `k`-th, and if
      it finds none within its limits there is none within them. */
  lemma ReadHere(s: Bytes, k: nat, here: Bytes, parse: ResponseParser, head: nat, line: nat, cap: nat)
    requires HeadStart(s, k, Capped(parse, cap)) == Some(here) && head <= cap
    ensures NthHead(s, k, Capped(parse, cap)) == HeadThen(here, parse, cap)
    ensures HeadThen(here, parse, head).None? ==> NthHead(s, k, Reading(parse, head, line)).None?
  {
    HeadAtStart(s, k, Capped(parse, cap));
    HeadAtStart(s, k, Reading(parse, head, line));
    if HeadStart(s, k, Reading(parse, head, line)).Some? {
      LimitsAgree(parse, head, line, cap);
      StartAgrees(s, k, Reading(parse, head, line), Capped(parse, cap));
    }
  }

  /** A reader that has just taken the `k`-th head: skipping its body leads to the next head, and if the
      body cannot be skipped within the limits no next head can be found within them. */
  lemma SkipHere(s: Bytes, k: nat, f: Found, parse: ResponseParser, head: nat, line: nat, cap: nat)
    requires NthHead(s, k, Capped(parse, cap)) == Some(f) && head <= cap
    ensures HeadStart(s, k + 1, Capped(parse, cap)) == AfterBody(FramingOf(f.head), f.rest, |f.rest|)
    ensures AfterBody(FramingOf(f.head), f.rest, line).None? ==> NthHead(s, k + 1, Reading(parse, head, line)).None?
  {
    HeadAtStart(s, k + 1, Reading(parse, head, line));
    if NthHead(s, k, Reading(parse, head, line)).Some? {
      LimitsAgree(parse, head, line, cap);
      NthHeadAgrees(s, k, Reading(parse, head, line), Capped(parse, cap));
    }
  }

  // ---------------------------------------------------------------------------------------------
  // Correctly framed responses

  datatype MessageBody = NoBody | Sized(bytes: Bytes) | Chunks(body: Body)

  datatype Message = Message(head: Bytes, body: MessageBody)

  function BodyBytes(b: MessageBody): Bytes {
    match b
    case NoBody => []
    case Sized(bytes) => bytes
    case Chunks(body) => Encode(body)
  }

  function Send(ms: seq<Message>): Bytes {
    if ms == [] then [] else ms[0].head + BodyBytes(ms[0].body) + Send(ms[1..])
  }

  /** A head the reader accepts. */
  ghost predicate HeadFits(m: Message, parse: ResponseParser, limit: nat) {
    HeaderEnd(m.head) == Some(|m.head|) && |m.head| <= limit && parse(m.head).Some?
  }

  /** A body framed as the head announces, in lines of at most `limit` bytes. */
  ghost predicate BodyFits(framing: BodyFraming, b: MessageBody, limit: nat) {
    match b
    case Chunks(body) => framing == ChunkedBody && WellFormed(body) && Fits(body, limit)
    case Sized(bytes) => framing == SizedBody(|bytes|)
    case NoBody => framing == Bodyless
  }

  ghost predicate Framed(m: Message, parse: ResponseParser, head: nat, line: nat) {
    HeadFits(m, parse, head) && BodyFits(FramingOf(parse(m.head).value), m.body, line)
  }

  lemma HeadRead(m: Message, rest: Bytes, parse: ResponseParser, limit: nat)
    requires HeadFits(m, parse, limit)
    ensures HeadThen(m.head + rest, parse, limit) == Some(Found(parse(m.head).value, rest))
  {
    HeadInBuffer(m.head, rest, limit);
    assert m.head[..|m.head|] == m.head;
    assert (m.head + rest)[|m.head|..] == rest;
  }

  lemma BodySkipped(framing: BodyFraming, b: MessageBody, rest: Bytes, limit: nat)
    requires BodyFits(framing, b, limit)
    ensures AfterBody(framing, BodyBytes(b) + rest, limit) == Some(rest)
  {
    match b
    case Chunks(body) => EncodeThenDecode(body, rest, limit);
    case Sized(bytes) => assert (bytes + rest)[|bytes|..] == rest;
    case NoBody => assert [] + rest == rest;
  }

  /** What follows the head of the `k`-th response: its body, then the later responses. */
  function Behind(ms: seq<Message>, k: nat, tail: Bytes): Bytes
    requires k < |ms|
  {
    BodyBytes(ms[k].body) + (Send(ms[k + 1..]) + tail)
  }

  lemma SendSplits(ms: seq<Message>, k: nat, tail: Bytes)
    requires k < |ms|
    ensures Send(ms[k..]) + tail == ms[k].head + Behind(ms, k, tail)
  {
    assert ms[k..][1..] == ms[k + 1..];
  }

  /** Alignment: on a stream of correctly framed responses the `k`-th head found is the head of the
      `k`-th response sent, and what follows it is its body and the responses after it. */
  lemma {:induction false} KthHeadIsKthResponse(
      ms: seq<Message>, tail: Bytes, k: nat, parse: ResponseParser, head: nat, line: nat)
    requires k < |ms|
    requires forall i | 0 <= i < k :: Framed(ms[i], parse, head, line)
    requires HeadFits(ms[k], parse, head)
    ensures NthHead(Send(ms) + tail, k, Reading(parse, head, line))
            == Some(Found(parse(ms[k].head).value, Behind(ms, k, tail)))
  {
    var rules := Reading(parse, head, line);
    SendSplits(ms, k, tail);
    HeadRead(ms[k], Behind(ms, k, tail), parse, head);
    assert rules.next(Send(ms[k..]) + tail) == Some(Found(parse(ms[k].head).value, Behind(ms, k, tail)));
    if k == 0 {
      assert ms[0..] == ms;
    } else {
      var f := Found(parse(ms[k - 1].head).value, Behind(ms, k - 1, tail));
      KthHeadIsKthResponse(ms, tail, k - 1, parse, head, line);
      BodySkipped(FramingOf(f.head), ms[k - 1].body, Send(ms[k..]) + tail, line);
      assert rules.skip(f) == Some(Send(ms[k..]) + tail);
    }
  }
}
