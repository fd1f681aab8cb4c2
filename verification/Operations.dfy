/** Whole runs of the reader: any sequence of its operations on one connection (`src/http1.rs`). */
module Operations {
  import opened Wire
  import opened Lines
  import opened Messages
  import opened Chunked
  import opened Framing
  import opened Http1

  datatype Operation = ReadHead | Discard(n: nat) | ReadLine(max: nat) | DrainChunked

  /** The settings of a reader: the cap on response heads and the head parser. */
  datatype Settings = Settings(cap: nat, parse: ResponseParser)

  /** Where a reader stands: what it has buffered and what it has not read yet. */
  datatype Reader = Reader(buffer: Bytes, unread: Bytes) {
    function Logical(): Bytes { buffer + unread }
  }

  /** `ReadLine` with reads of these sizes. */
  ghost predicate TakesLine(max: nat, sizes: seq<nat>, before: Reader, after: Reader) {
    var outcome := LineRun(before.buffer, before.unread, max, sizes);
    && outcome.Line?
    && LineBuffer(before.buffer, before.unread, max, sizes) == outcome.text + CRLF + after.buffer
    && StartsWithLine(before.Logical(), outcome.text)
    && after.Logical() == before.Logical()[|outcome.text| + 2..]
  }

  ghost predicate TakesHead(settings: Settings, before: Reader, after: Reader) {
    var head := HeadWithin(before.Logical(), Max(settings.cap, |before.buffer|));
    && head.Ok? && settings.parse(head.value).Some?
    && after.Logical() == before.Logical()[|head.value|..]
    && |after.buffer| <= Max(settings.cap, |before.buffer|)
    && (HeaderEnd(before.buffer).Some? ==> after.buffer == before.buffer[HeaderEnd(before.buffer).value..])
  }

  /** What a successful operation does. */
  ghost predicate Takes(op: Operation, settings: Settings, before: Reader, after: Reader) {
    match op
    case ReadHead => TakesHead(settings, before, after)
    case Discard(n) =>
      && n <= |before.Logical()| && after.Logical() == before.Logical()[n..]
      && after.buffer == before.buffer[Min(n, |before.buffer|)..]
    case ReadLine(max) => exists sizes :: TakesLine(max, sizes, before, after)
    case DrainChunked =>
      && DecodeChunked(before.Logical(), |before.Logical()|) == Some(after.Logical())
      && |after.buffer| <= Max(|before.buffer|, LEFT_OVER)
  }

  /** Where the reader stands after each of a sequence of successful operations. */
  ghost predicate Chain(ops: seq<Operation>, settings: Settings, readers: seq<Reader>) {
    && |readers| == |ops| + 1
    && forall i | 0 <= i < |ops| :: Takes(ops[i], settings, readers[i], readers[i + 1])
  }

  // ---------------------------------------------------------------------------------------------
  // Conservation

  /** The bytes each operation consumed. */
  ghost function Consumed(readers: seq<Reader>): seq<Bytes> {
    if |readers| <= 1 then [] else [Between(readers[0].Logical(), readers[1].Logical())] + Consumed(readers[1..])
  }

  ghost function Between(before: Bytes, after: Bytes): Bytes {
    if |after| <= |before| then before[..|before| - |after|] else []
  }

  ghost function Flatten(pieces: seq<Bytes>): Bytes {
    if pieces == [] then [] else pieces[0] + Flatten(pieces[1..])
  }

  lemma SuffixAt(t: Bytes, s: Bytes, n: nat)
    requires n <= |s| && t == s[n..]
    ensures IsSuffix(t, s)
  {
  }

  lemma SuffixSplits(t: Bytes, s: Bytes)
    requires IsSuffix(t, s)
    ensures s == Between(s, t) + t && |Between(s, t)| == |s| - |t|
  {
  }

  lemma HeadFromFront(settings: Settings, before: Reader, after: Reader)
    requires TakesHead(settings, before, after)
    ensures IsSuffix(after.Logical(), before.Logical())
  {
    SuffixAt(after.Logical(), before.Logical(),
             |HeadWithin(before.Logical(), Max(settings.cap, |before.buffer|)).value|);
  }

  lemma LineFromFront(max: nat, sizes: seq<nat>, before: Reader, after: Reader)
    requires TakesLine(max, sizes, before, after)
    ensures IsSuffix(after.Logical(), before.Logical())
  {
    SuffixAt(after.Logical(), before.Logical(), |LineRun(before.buffer, before.unread, max, sizes).text| + 2);
  }

  lemma TakesFromFront(op: Operation, settings: Settings, before: Reader, after: Reader)
    requires Takes(op, settings, before, after)
    ensures IsSuffix(after.Logical(), before.Logical())
    ensures op.Discard? ==> |before.Logical()| - |after.Logical()| == op.n
  {
    match op
    case ReadHead => HeadFromFront(settings, before, after);
    case Discard(n) =>
    case ReadLine(max) =>
      var sizes :| TakesLine(max, sizes, before, after);
      LineFromFront(max, sizes, before, after);
    case DrainChunked => DecodeLeavesSuffix(before.Logical(), |before.Logical()|);
  }

  lemma ChainTail(ops: seq<Operation>, settings: Settings, readers: seq<Reader>)
    requires Chain(ops, settings, readers) && ops != []
    ensures Chain(ops[1..], settings, readers[1..])
    ensures Takes(ops[0], settings, readers[0], readers[1])
  {
    var rest, more := ops[1..], readers[1..];
    forall i | 0 <= i < |rest| ensures Takes(rest[i], settings, more[i], more[i + 1]) {
      assert Takes(ops[i + 1], settings, readers[i + 1], readers[i + 2]);
    }
  }

  /** Conservation over every run: what the operations consumed, in order, followed by what is left,
      is the stream as the peer sent it; discarding `n` bytes consumes exactly `n`. */
  lemma {:induction false} RunConserves(ops: seq<Operation>, settings: Settings, readers: seq<Reader>)
    requires Chain(ops, settings, readers)
    ensures readers[0].Logical() == Flatten(Consumed(readers)) + readers[|ops|].Logical()
    ensures |Consumed(readers)| == |ops|
    ensures forall i | 0 <= i < |ops| :: ops[i].Discard? ==> |Consumed(readers)[i]| == ops[i].n
  {
    if ops != [] {
      var first, rest := Between(readers[0].Logical(), readers[1].Logical()), readers[1..];
      ChainTail(ops, settings, readers);
      TakesFromFront(ops[0], settings, readers[0], readers[1]);
      SuffixSplits(readers[1].Logical(), readers[0].Logical());
      RunConserves(ops[1..], settings, rest);
      Regroup(first, Consumed(rest), rest[|ops| - 1].Logical());
      assert forall i | 0 < i < |ops| :: Consumed(readers)[i] == Consumed(rest)[i - 1] && ops[i] == ops[1..][i - 1];
    }
  }

  lemma Regroup(first: Bytes, pieces: seq<Bytes>, end: Bytes)
    ensures first + (Flatten(pieces) + end) == Flatten([first] + pieces) + end
  {
    assert ([first] + pieces)[1..] == pieces;
  }

  // ---------------------------------------------------------------------------------------------
  // The cap on response heads

  /** Between successful operations the buffer never holds more than the cap, or than a line read can leave. */
  lemma {:induction false} BufferBound(ops: seq<Operation>, settings: Settings, readers: seq<Reader>, i: nat)
    requires Chain(ops, settings, readers) && readers[0].buffer == [] && i <= |ops|
    ensures |readers[i].buffer| <= Max(settings.cap, LEFT_OVER)
  {
    if i > 0 {
      BufferBound(ops, settings, readers, i - 1);
      assert Takes(ops[i - 1], settings, readers[i - 1], readers[i]);
      if ops[i - 1].ReadLine? {
        var sizes :| TakesLine(ops[i - 1].max, sizes, readers[i - 1], readers[i]);
        LineLeaves(readers[i - 1].buffer, readers[i - 1].unread, ops[i - 1].max, sizes);
      }
    }
  }

  /** The head that operation `i` of a run accepts. */
  ghost predicate Accepts(ops: seq<Operation>, readers: seq<Reader>, i: nat, head: Bytes) {
    && |readers| == |ops| + 1 && i < |ops| && ops[i].ReadHead?
    && head <= readers[i].Logical() && HeaderEnd(readers[i].Logical()) == Some(|head|)
  }

  /** Every head accepted in a run is at most as long as the cap, or as what a line read can leave. */
  lemma AcceptedHead(ops: seq<Operation>, settings: Settings, readers: seq<Reader>, i: nat, head: Bytes)
    requires Chain(ops, settings, readers) && readers[0].buffer == [] && Accepts(ops, readers, i, head)
    ensures |head| <= Max(settings.cap, LEFT_OVER)
    ensures HeaderEnd(head) == Some(|head|) && settings.parse(head).Some?
  {
    BufferBound(ops, settings, readers, i);
    assert Takes(ops[i], settings, readers[i], readers[i + 1]);
    var s := readers[i].Logical();
    assert head == s[..|head|] && s == head + s[|head|..];
    FindInPrefix(CRLFCRLF, head, s[|head|..]);
  }

  /** No run from a new connection accepts a head longer than the cap. */
  ghost predicate CapKept(settings: Settings) {
    forall ops, readers: seq<Reader>, i, head |
      Chain(ops, settings, readers) && readers[0].buffer == [] && Accepts(ops, readers, i, head) ::
      |head| <= settings.cap
  }

  /** A head longer than the cap that the parser accepts and that a line read can leave in the buffer. */
  ghost predicate Slips(head: Bytes, settings: Settings) {
    HeaderEnd(head) == Some(|head|) && settings.parse(head).Some? && settings.cap < |head| <= LEFT_OVER
  }

  /** A line that arrives in two reads. */
  lemma LineInTwoReads(a: Bytes, b: Bytes, max: nat, i: nat) returns (sizes: seq<nat>)
    requires Find(CRLF, []).None? && Find(CRLF, a).None? && Find(CRLF, a + b) == Some(i)
    requires 1 <= |a| < max && |a| <= 1024 && 1 <= |b| <= 1024
    ensures LineRun([], a + b, max, sizes) == Line((a + b)[..i]) && LineBuffer([], a + b, max, sizes) == a + b
  {
    var s := a + b;
    assert s[..|a|] == a && s[|a|..] == b && [] + a == a && b[..|b|] == b && b[|b|..] == [];
    LeadsToNothing([], s, max);
    LeadsToNext([], s, max, [], [], s, |a|);
    LeadsToNext([], s, max, [] + [|a|], a, b, |b|);
    sizes := [] + [|a|] + [|b|];
    LeadsToEnd([], s, max, sizes, s, []);
  }

  lemma LineAtStart(rest: Bytes)
    ensures Find(CRLF, CRLF + rest) == Some(0) && StartsWithLine(CRLF + rest, [])
    ensures Find(CRLF, []).None? && Find(CRLF, [CR]).None?
  {
    assert (CRLF + rest)[0..2] == CRLF && [] + CRLF == CRLF;
    FirstOccursUnique(CRLF, CRLF + rest, 0);
  }

  /** An empty line and a head of at most 1023 bytes behind it, of which the first byte arrives alone. */
  lemma LineBeforeHead(head: Bytes) returns (sizes: seq<nat>)
    requires |head| <= LEFT_OVER
    ensures TakesLine(2, sizes, Reader([], CRLF + head), Reader(head, []))
  {
    LineAtStart(head);
    assert [CR] + ([LF] + head) == CRLF + head && (CRLF + head)[..0] == [] && (CRLF + head)[2..] == head;
    assert [] + CRLF + head == CRLF + head;
    sizes := LineInTwoReads([CR], [LF] + head, 2, 0);
    assert Reader([], CRLF + head).Logical() == CRLF + head && Reader(head, []).Logical() == head;
  }

  lemma HeadIsBuffered(head: Bytes, settings: Settings)
    requires HeaderEnd(head) == Some(|head|) && settings.parse(head).Some?
    ensures TakesHead(settings, Reader(head, []), Reader([], []))
  {
    assert Reader(head, []).Logical() == head && head[..|head|] == head && head[|head|..] == [];
  }

  /** A run that accepts a head that slips. */
  lemma LineThenHead(head: Bytes, settings: Settings) returns (ops: seq<Operation>, readers: seq<Reader>)
    requires Slips(head, settings)
    ensures Chain(ops, settings, readers) && readers[0].buffer == [] && Accepts(ops, readers, 1, head)
  {
    ops := [ReadLine(2), ReadHead];
    readers := [Reader([], CRLF + head), Reader(head, []), Reader([], [])];
    var sizes := LineBeforeHead(head);
    HeadIsBuffered(head, settings);
    assert Takes(ops[0], settings, readers[0], readers[1]) && Takes(ops[1], settings, readers[1], readers[2]);
    assert readers[1].Logical() == head;
  }

  /** The cap is kept in every run exactly if the parser accepts no head that slips; in particular it is kept
      by every cap of at least 1023 bytes. */
  lemma CapKeptExactly(settings: Settings)
    ensures CapKept(settings) <==> forall head :: !Slips(head, settings)
    ensures settings.cap >= LEFT_OVER ==> CapKept(settings)
  {
    forall head | Slips(head, settings) ensures !CapKept(settings) {
      var ops, readers := LineThenHead(head, settings);
      assert Accepts(ops, readers, 1, head);
    }
    if forall head :: !Slips(head, settings) {
      forall ops, readers: seq<Reader>, i, head |
        Chain(ops, settings, readers) && readers[0].buffer == [] && Accepts(ops, readers, i, head)
        ensures |head| <= settings.cap
      {
        AcceptedHead(ops, settings, readers, i, head);
        assert !Slips(head, settings);
      }
    }
  }

  /** A head of 1023 bytes. */
  function Oversized(): Bytes { seq(1019, i => 120) + CRLFCRLF }

  /** One cap and one head: with a cap of 1022 bytes a head of 1023 is accepted. */
  lemma CapOf1022(parse: ResponseParser)
    requires parse(Oversized()).Some?
    ensures !CapKept(Settings(1022, parse))
  {
    var s := Oversized();
    assert s[1019..1023] == CRLFCRLF;
    forall j | 0 <= j < 1019 ensures !Occurs(CRLFCRLF, s, j) {
      assert s[j..j + 4][0] == 120;
    }
    FirstOccursUnique(CRLFCRLF, s, 1019);
    assert Slips(s, Settings(1022, parse));
    CapKeptExactly(Settings(1022, parse));
  }

  // ---------------------------------------------------------------------------------------------
  // The operations of a `BufferedStream`

  ghost function Standing(s: BufferedStream): Reader
    reads s, s.stream
  {
    Reader(s.buffer, s.stream.incoming)
  }

  /** What must be wrong with a stream for an operation to fail on it, unless the connection does. */
  ghost predicate Refuses(op: Operation, settings: Settings, before: Reader) {
    var s := before.Logical();
    match op
    case ReadHead => ParseHead(HeadWithin(s, Max(settings.cap, |before.buffer|)), settings.parse).Err?
    case Discard(n) => |s| < n
    case ReadLine(max) => LineWithin(s, Max(max, |before.buffer|)).None?
    case DrainChunked => DecodeChunked(s, 8192).None?
  }

  method PerformReadLine(s: BufferedStream, max: nat, ghost settings: Settings) returns (ok: bool)
    requires s.Valid() && max <= CHUNK_LINE
    modifies s, s.stream`incoming, s.stream`failed
    ensures s.Valid()
    ensures ok ==> Takes(ReadLine(max), settings, old(Standing(s)), Standing(s))
    ensures !ok ==> s.stream.failed || Refuses(ReadLine(max), settings, old(Standing(s)))
    ensures s.peak <= Max(old(s.peak), 8191 + 1024)
  {
    ghost var before := Standing(s);
    var r;
    ghost var sizes;
    r, sizes := s.ReadLine(max);
    assert r.Ok? ==> TakesLine(max, sizes, before, Standing(s));
    ok := r.Ok?;
  }

  /** One operation. */
  method Perform(s: BufferedStream, op: Operation, settings: Settings) returns (ok: bool)
    requires s.Valid() && (op.ReadLine? ==> op.max <= CHUNK_LINE)
    modifies s, s.stream`incoming, s.stream`failed
    ensures s.Valid()
    ensures ok ==> Takes(op, settings, old(Standing(s)), Standing(s))
    ensures !ok ==> s.stream.failed || Refuses(op, settings, old(Standing(s)))
    ensures s.peak <= Max(old(s.peak), Max(settings.cap, 8191 + 1024))
  {
    match op {
      case ReadHead =>
        var r := s.ReadResponseHead(settings.cap, settings.parse);
        ok := r.Ok?;
      case Discard(n) =>
        var r := s.DiscardExact(n);
        ok := r.Ok?;
      case ReadLine(max) =>
        ok := PerformReadLine(s, max, settings);
      case DrainChunked =>
        var r := s.DrainChunked();
        ok := r.Ok?;
    }
  }

  /** The first `done` operations have succeeded and led from the start to where the reader stands. */
  ghost predicate Performed(ops: seq<Operation>, done: nat, settings: Settings, readers: seq<Reader>,
                            start: Reader, here: Reader) {
    && done <= |ops| && Chain(ops[..done], settings, readers) && readers[0] == start && readers[done] == here
  }

  lemma NonePerformed(ops: seq<Operation>, settings: Settings, start: Reader)
    ensures Performed(ops, 0, settings, [start], start, start)
  {
  }

  lemma OneMorePerformed(ops: seq<Operation>, done: nat, settings: Settings, readers: seq<Reader>,
                         start: Reader, here: Reader, next: Reader)
    requires Performed(ops, done, settings, readers, start, here) && done < |ops|
    requires Takes(ops[done], settings, here, next)
    ensures Performed(ops, done + 1, settings, readers + [next], start, next)
  {
    ChainExtends(ops[..done], settings, readers, ops[done], next);
    assert ops[..done + 1] == ops[..done] + [ops[done]];
  }

  lemma AllPerformed(ops: seq<Operation>, done: nat, settings: Settings, readers: seq<Reader>,
                     start: Reader, here: Reader)
    requires Performed(ops, done, settings, readers, start, here) && start.buffer == []
    ensures |here.buffer| <= Max(settings.cap, 1023)
  {
    BufferBound(ops[..done], settings, readers, done);
  }

  /** Runs the operations in order and stops at the first failure. Whatever they are, the buffer never holds
      more than the cap or 9215 bytes, and between successful ones no more than the cap or 1023. */
  method Run(s: BufferedStream, ops: seq<Operation>, settings: Settings)
      returns (done: nat, ghost readers: seq<Reader>, ghost here: Reader)
    requires s.Valid() && s.position == 0 && s.peak == 0
    requires forall i | 0 <= i < |ops| :: ops[i].ReadLine? ==> ops[i].max <= 8192
    modifies s, s.stream`incoming, s.stream`failed
    ensures s.Valid()
    ensures s.peak <= Max(settings.cap, 8191 + 1024)
    ensures Performed(ops, done, settings, readers, Reader([], s.origin), here)
    ensures done == |ops| ==> here == Standing(s)
    ensures done < |ops| ==> s.stream.failed || Refuses(ops[done], settings, here)
    ensures |here.buffer| <= Max(settings.cap, 1023)
  {
    done, readers, here := 0, [Standing(s)], Standing(s);
    ghost var start := here;
    NonePerformed(ops, settings, start);
    while done < |ops|
      invariant s.Valid() && here == Standing(s)
      invariant s.peak <= Max(settings.cap, 8191 + 1024)
      invariant done <= |ops| && Performed(ops, done, settings, readers, start, here)
    {
      var ok := Perform(s, ops[done], settings);
      if !ok {
        break;
      }
      OneMorePerformed(ops, done, settings, readers, start, here, Standing(s));
      readers, here := readers + [Standing(s)], Standing(s);
      done := done + 1;
    }
    AllPerformed(ops, done, settings, readers, start, here);
  }

  lemma ChainExtends(ops: seq<Operation>, settings: Settings, readers: seq<Reader>, op: Operation, after: Reader)
    requires Chain(ops, settings, readers) && Takes(op, settings, readers[|ops|], after)
    ensures Chain(ops + [op], settings, readers + [after])
  {
    forall i | 0 <= i < |ops| + 1
      ensures Takes((ops + [op])[i], settings, (readers + [after])[i], (readers + [after])[i + 1])
    {
      if i < |ops| {
        assert Takes(ops[i], settings, readers[i], readers[i + 1]);
      }
    }
  }

  /** The round trip on the wire: however the encoding of a body arrives, draining it succeeds unless the
      connection fails, and leaves exactly what follows the body. */
  method DrainEncoded(s: BufferedStream, ghost body: Body, ghost rest: Bytes) returns (r: Result<(), HttpError>)
    requires s.Valid() && s.Logical() == Encode(body) + rest
    requires WellFormed(body) && Fits(body, 8192)
    modifies s, s.stream`incoming, s.stream`failed
    ensures s.Valid()
    ensures r.Ok? ==> s.Logical() == rest
    ensures r.Err? ==> r == Err(Io)
  {
    EncodeThenDecode(body, rest, CHUNK_LINE);
    DecodeWithoutLimit(s.Logical(), CHUNK_LINE);
    r := s.DrainChunked();
  }
}
