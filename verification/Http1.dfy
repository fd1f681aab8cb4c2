/** What the HTTP/1 reader computes, as functions of a whole byte stream. */
module Framing {
  import opened Wire
  import opened Messages
  import opened Chunked

  /** `find_header_end`: where the first CRLFCRLF ends. */
  function HeaderEnd(s: Bytes): (r: Option<nat>)
    ensures r.Some? ==> 4 <= r.value <= |s|
  {
    match Find(CRLFCRLF, s)
    case None => None
    case Some(i) => Some(i + 4)
  }

  /** The head a stream starts with when at most `limit` bytes of it may be buffered. */
  function HeadWithin(s: Bytes, limit: nat): (r: Result<Bytes, HttpError>)
    ensures r.Ok? ==> r.value <= s && |r.value| <= limit
  {
    match HeaderEnd(s)
    case Some(e) => if e <= limit then Ok(s[..e]) else Err(HeaderTooLarge)
    case None => if |s| >= limit then Err(HeaderTooLarge) else Err(UnexpectedEof)
  }

  /** Searching what has arrived decides the outcome for the whole stream. */
  lemma HeadInBuffer(buffer: Bytes, unread: Bytes, limit: nat)
    requires |buffer| <= limit
    ensures HeaderEnd(buffer).Some? ==>
              HeaderEnd(buffer + unread) == HeaderEnd(buffer)
              && HeadWithin(buffer + unread, limit) == Ok(buffer[..HeaderEnd(buffer).value])
    ensures HeaderEnd(buffer).None? && |buffer| == limit ==> HeadWithin(buffer + unread, limit) == Err(HeaderTooLarge)
    ensures HeaderEnd(buffer).None? && |buffer| < limit && unread == [] ==>
              HeadWithin(buffer + unread, limit) == Err(UnexpectedEof)
  {
    FindInPrefix(CRLFCRLF, buffer, unread);
    if HeaderEnd(buffer).Some? {
      assert (buffer + unread)[..HeaderEnd(buffer).value] == buffer[..HeaderEnd(buffer).value];
    }
    assert unread == [] ==> buffer + unread == buffer;
  }

  function ParseHead(head: Result<Bytes, HttpError>, parse: ResponseParser): Result<ResponseHead, HttpError> {
    match head
    case Err(e) => Err(e)
    case Ok(bytes) =>
      match parse(bytes)
      case None => Err(Parse)
      case Some(r) => Ok(r)
  }

  const CHUNK_LINE: nat := 8192

  /** How the end of a response body is found. */
  datatype BodyFraming = ChunkedBody | SizedBody(length: nat) | Bodyless | Unframed(error: HttpError)

  /** The framing a head announces, as `drain_response_body` reads it. */
  function FramingOf(r: ResponseHead): BodyFraming {
    if IsChunked(r) then ChunkedBody
    else
      match ContentLength(r)
      case Err(e) => Unframed(e)
      case Ok(None) => Bodyless
      case Ok(Some(n)) => SizedBody(n)
  }

  /** How a body is framed, from the text of the headers: chunked if some Transfer-Encoding lists `chunked`, otherwise
      by the agreed Content-Length, and without a body if there is none. */
  lemma FramingMeaning(r: ResponseHead, n: nat)
    ensures FramingOf(r) == ChunkedBody <==> Mentions(r, Ascii("transfer-encoding"), Ascii("chunked"))
    ensures FramingOf(r) == SizedBody(n) <==>
            && !Mentions(r, Ascii("transfer-encoding"), Ascii("chunked"))
            && Has(r, Ascii("content-length"))
            && AllLengths(r.headers, Ascii("content-length"), n)
    ensures FramingOf(r) == Bodyless <==>
            !Mentions(r, Ascii("transfer-encoding"), Ascii("chunked")) && !Has(r, Ascii("content-length"))
  {
    IsChunkedMeaning(r);
    ContentLengthMeaning(r, n);
  }

  /** What follows a body of this framing, when no line of a chunked body is longer than `limit`. */
  function AfterBody(framing: BodyFraming, s: Bytes, limit: nat): (after: Option<Bytes>)
    ensures after.Some? ==> |after.value| <= |s|
  {
    match framing
    case ChunkedBody => DecodeChunked(s, limit)
    case SizedBody(n) => if n <= |s| then Some(s[n..]) else None
    case Bodyless => Some(s)
    case Unframed(_) => None
  }
}

/** The incremental reader over a socket (`BufferedStream` and `read_head_bytes` of `src/http1.rs`). */
module Http1 {
  import opened Wire
  import opened Lines
  import opened Messages
  import opened Chunked
  import opened Framing
  import opened Sockets

  /** A result of `read_line` as an outcome of the run that led to it. */
  predicate AsRun(r: Result<Bytes, HttpError>, outcome: LineOutcome) {
    match outcome
    case Line(text) => r == Ok(text)
    case TooLong => r == Err(InvalidChunkedBody)
    case Ended => r == Err(UnexpectedEof)
    case Waiting => false
  }

  class BufferedStream {
    const stream: TcpStream
    var buffer: Bytes

    /** Everything the peer delivers on this connection, how much of it has been taken, and the most
        that was ever held in the buffer. */
    ghost const origin: Bytes
    ghost var position: nat
    ghost var peak: nat

    /** The logical stream: the bytes not yet taken. */
    ghost function Logical(): Bytes
      requires position <= |origin|
      reads this
    {
      origin[position..]
    }

    /** At any time the bytes not yet taken are those buffered followed by those still to be read:
        nothing is lost, duplicated or reordered. */
    ghost predicate Valid()
      reads this, stream
    {
      position <= |origin| && buffer + stream.incoming == Logical() && |buffer| <= peak
    }

    constructor (stream: TcpStream)
      ensures Valid() && this.stream == stream && origin == stream.incoming
      ensures buffer == [] && position == 0 && peak == 0
    {
      this.stream := stream;
      buffer := [];
      origin := stream.incoming;
      position := 0;
      peak := 0;
    }

    /** Reads one piece of at most `wanted` bytes and appends it to the buffer: how many bytes came,
        or `None` on an I/O error. The logical stream does not change. */
    method Fill(wanted: nat) returns (read: Option<nat>)
      requires Valid() && wanted > 0
      modifies this`buffer, this`peak, stream`incoming, stream`failed
      ensures stream.failed <==> old(stream.failed) || read.None?
      ensures Valid()
      ensures read.None? ==> buffer == old(buffer) && peak == old(peak)
      ensures read.Some? ==> read.value <= wanted && read.value <= |old(stream.incoming)|
      ensures read.Some? ==> buffer == old(buffer) + old(stream.incoming)[..read.value]
                             && stream.incoming == old(stream.incoming)[read.value..]
      ensures read.Some? ==> (read.value == 0 <==> old(stream.incoming) == [])
      ensures read.Some? ==> peak == Max(old(peak), |buffer|)
    {
      var piece := stream.Read(wanted);
      if piece.None? {
        return None;
      }
      assert Logical() == buffer + piece.value + stream.incoming;
      buffer := buffer + piece.value;
      peak := Max(peak, |buffer|);
      read := Some(|piece.value|);
    }

    /** Reads one piece of at most `wanted` bytes and throws it away. */
    method Skip(wanted: nat) returns (read: Option<nat>)
      requires Valid() && wanted > 0 && buffer == []
      modifies this`position, stream`incoming, stream`failed
      ensures stream.failed <==> old(stream.failed) || read.None?
      ensures Valid()
      ensures read.None? ==> position == old(position)
      ensures read.Some? ==> read.value <= wanted && position == old(position) + read.value
      ensures read.Some? ==> (read.value == 0 <==> old(position) == |origin|)
    {
      var piece := stream.Read(wanted);
      if piece.None? {
        return None;
      }
      assert Logical()[|piece.value|..] == stream.incoming;
      position := position + |piece.value|;
      read := Some(|piece.value|);
    }

    /** `buffer.drain(..n)`. */
    method Drop(n: nat)
      requires Valid() && n <= |buffer|
      modifies this`buffer, this`position
      ensures Valid()
      ensures buffer == old(buffer)[n..] && position == old(position) + n
    {
      assert Logical()[n..] == buffer[n..] + stream.incoming;
      position := position + n;
      buffer := buffer[n..];
    }

    /** The outcome is a function of the bytes alone, whatever the sizes of the reads: the first head
        of the logical stream, if it fits in `maxHeaderBytes` or is already buffered. */
    method ReadResponseHead(maxHeaderBytes: nat, parse: ResponseParser)
        returns (r: Result<ResponseHead, HttpError>)
      requires Valid()
      modifies this`buffer, this`position, this`peak, stream`incoming, stream`failed
      ensures stream.failed <==> old(stream.failed) || r == Err(Io)
      ensures Valid()
      ensures r != Err(Io) ==>
                r == ParseHead(HeadWithin(old(Logical()), Max(maxHeaderBytes, |old(buffer)|)), parse)
      ensures r.Ok? || r == Err(Parse) ==>
                HeaderEnd(old(Logical())).Some? && position == old(position) + HeaderEnd(old(Logical())).value
      ensures !(r.Ok? || r == Err(Parse)) ==> position == old(position)
      ensures peak <= Max(old(peak), maxHeaderBytes)
      ensures |buffer| <= Max(maxHeaderBytes, |old(buffer)|)
      ensures r.Ok? && HeaderEnd(old(buffer)).Some? ==> buffer == old(buffer)[HeaderEnd(old(buffer)).value..]
    {
      ghost var before := |buffer|;
      while true
        invariant Valid() && position == old(position) && stream.failed == old(stream.failed)
        invariant before <= |buffer| <= Max(maxHeaderBytes, before)
        invariant buffer != old(buffer) ==> HeaderEnd(old(buffer)).None?
        invariant peak <= Max(old(peak), maxHeaderBytes)
        decreases |stream.incoming|
      {
        HeadInBuffer(buffer, stream.incoming, Max(maxHeaderBytes, before));
        var end := HeaderEnd(buffer);
        if end.Some? {
          var head := buffer[..end.value];
          Drop(end.value);
          var parsed := parse(head);
          if parsed.None? {
            return Err(Parse);
          }
          return Ok(parsed.value);
        }
        if |buffer| >= maxHeaderBytes {
          return Err(HeaderTooLarge);
        }
        var read := Fill(Min(8192, maxHeaderBytes - |buffer|));
        if read.None? {
          return Err(Io);
        }
        if read.value == 0 {
          return Err(UnexpectedEof);
        }
      }
    }

    /** Takes exactly `n` bytes, buffered ones first, and leaves no newly read byte in the buffer. */
    method DiscardExact(n: nat) returns (r: Result<(), HttpError>)
      requires Valid()
      modifies this`buffer, this`position, stream`incoming, stream`failed
      ensures stream.failed <==> old(stream.failed) || r == Err(Io)
      ensures Valid()
      ensures r.Ok? || r == Err(Io) || r == Err(UnexpectedEof)
      ensures buffer == old(buffer)[Min(n, |old(buffer)|)..]
      ensures old(position) <= position <= old(position) + n
      ensures r.Ok? ==> position == old(position) + n
      ensures r == Err(UnexpectedEof) ==> |old(Logical())| < n
    {
      var buffered := Min(n, |buffer|);
      Drop(buffered);
      var remaining := n - buffered;
      while remaining > 0
        invariant Valid() && stream.failed == old(stream.failed)
        invariant 0 <= remaining <= n && position == old(position) + n - remaining
        invariant buffer == old(buffer)[buffered..]
        invariant remaining > 0 ==> buffer == []
        decreases remaining
      {
        var read := Skip(Min(remaining, 8192));
        if read.None? {
          return Err(Io);
        }
        if read.value == 0 {
          return Err(UnexpectedEof);
        }
        remaining := remaining - read.value;
      }
      r := Ok(());
    }

    /** Takes the line that has been found in the buffer. */
    method TakeLine(index: nat) returns (line: Bytes)
      requires Valid() && Find(CRLF, buffer) == Some(index)
      modifies this`buffer, this`position
      ensures Valid()
      ensures line == old(buffer)[..index] && position == old(position) + index + 2
      ensures StartsWithLine(old(Logical()), line) && old(buffer) == line + CRLF + buffer
    {
      FindInPrefix(CRLF, buffer, stream.incoming);
      line := buffer[..index];
      assert line + CRLF == buffer[..index + 2];
      assert line + CRLF == Logical()[..index + 2];
      Drop(index + 2);
    }

    /** Takes one line. What it returns is always the first line of the logical stream; a line whose
        CRLF ends within `maxBytes` is always found. `sizes` are the sizes of the reads. */
    method ReadLine(maxBytes: nat) returns (r: Result<Bytes, HttpError>, ghost sizes: seq<nat>)
      requires Valid()
      modifies this`buffer, this`position, this`peak, stream`incoming, stream`failed
      ensures stream.failed <==> old(stream.failed) || r == Err(Io)
      ensures Valid()
      ensures r.Ok? || r == Err(Io) || r == Err(UnexpectedEof) || r == Err(InvalidChunkedBody)
      ensures r.Ok? ==> StartsWithLine(old(Logical()), r.value) && position == old(position) + |r.value| + 2
      ensures r.Err? ==> position == old(position)
      ensures r == Err(UnexpectedEof) ==> Find(CRLF, old(Logical())).None?
      ensures r == Err(InvalidChunkedBody) ==> LineWithin(old(Logical()), Max(maxBytes, |old(buffer)|)).None?
      ensures peak <= Max(old(peak), maxBytes + 1023)
      ensures r != Err(Io) ==> AsRun(r, LineRun(old(buffer), old(stream.incoming), maxBytes, sizes))
      ensures r.Ok? ==> LineBuffer(old(buffer), old(stream.incoming), maxBytes, sizes) == r.value + CRLF + buffer
      ensures r.Ok? ==> |buffer| <= Max(|old(buffer)|, LEFT_OVER)
    {
      ghost var b, u := buffer, stream.incoming;
      sizes := [];
      LeadsToNothing(b, u, maxBytes);
      ghost var before := |buffer|;
      while true
        invariant Valid() && position == old(position) && stream.failed == old(stream.failed)
        invariant before <= |buffer|
        invariant peak <= Max(old(peak), maxBytes + 1023)
        invariant LeadsTo(b, u, maxBytes, sizes, buffer, stream.incoming)
        decreases |stream.incoming|
      {
        FindInPrefix(CRLF, buffer, stream.incoming);
        LeadsToEnd(b, u, maxBytes, sizes, buffer, stream.incoming);
        var index := Find(CRLF, buffer);
        if index.Some? {
          LineLeaves(b, u, maxBytes, sizes);
          var line := TakeLine(index.value);
          return Ok(line), sizes;
        }
        if |buffer| >= maxBytes {
          return Err(InvalidChunkedBody), sizes;
        }
        ghost var b', u' := buffer, stream.incoming;
        var read := Fill(1024);
        if read.None? {
          return Err(Io), sizes;
        }
        if read.value == 0 {
          return Err(UnexpectedEof), sizes;
        }
        LeadsToNext(b, u, maxBytes, sizes, b', u', read.value);
        sizes := sizes + [read.value];
      }
    }

    /** One trailer line; `done` when it is the empty one. */
    method TrailerTurn(ghost bound: nat) returns (r: Result<bool, HttpError>)
      requires Valid() && |Logical()| <= bound
      modifies this`buffer, this`position, this`peak, stream`incoming, stream`failed
      ensures stream.failed <==> old(stream.failed) || r == Err(Io)
      ensures Valid() && old(position) <= position
      ensures r == Ok(true) ==> SkipTrailers(old(Logical()), bound) == Some(Logical())
      ensures r == Ok(false) ==> old(position) < position
                                 && SkipTrailers(old(Logical()), bound) == SkipTrailers(Logical(), bound)
                                 && (SkipTrailers(old(Logical()), CHUNK_LINE).Some? ==>
                                       SkipTrailers(Logical(), CHUNK_LINE).Some?)
      ensures r.Err? && r != Err(Io) ==> SkipTrailers(old(Logical()), CHUNK_LINE).None?
      ensures r.Ok? ==> |buffer| <= Max(|old(buffer)|, LEFT_OVER)
      ensures peak <= Max(old(peak), CHUNK_LINE + 1023)
    {
      ghost var rest := Logical();
      var line, _ := ReadLine(CHUNK_LINE);
      if line.Err? {
        return Err(line.error);
      }
      TrailerTaken(rest, line.value, bound, CHUNK_LINE);
      assert Logical() == rest[|line.value| + 2..];
      r := Ok(line.value == []);
    }

    /** The loop that reads trailer lines up to the empty one; `bound` is at least the length of the
        stream, so that no line of it is longer. */
    method DrainTrailers(ghost bound: nat) returns (r: Result<(), HttpError>)
      requires Valid() && |Logical()| <= bound
      modifies this`buffer, this`position, this`peak, stream`incoming, stream`failed
      ensures stream.failed <==> old(stream.failed) || r == Err(Io)
      ensures Valid() && old(position) <= position
      ensures r.Ok? ==> SkipTrailers(old(Logical()), bound) == Some(Logical())
      ensures r.Err? && r != Err(Io) ==> SkipTrailers(old(Logical()), CHUNK_LINE).None?
      ensures r.Ok? ==> |buffer| <= Max(|old(buffer)|, LEFT_OVER)
      ensures peak <= Max(old(peak), CHUNK_LINE + 1023)
    {
      ghost var all := Logical();
      while true
        invariant Valid() && old(position) <= position && stream.failed == old(stream.failed)
        invariant |buffer| <= Max(|old(buffer)|, LEFT_OVER)
        invariant SkipTrailers(Logical(), bound) == SkipTrailers(all, bound)
        invariant SkipTrailers(all, CHUNK_LINE).Some? ==> SkipTrailers(Logical(), CHUNK_LINE).Some?
        invariant peak <= Max(old(peak), CHUNK_LINE + 1023)
        decreases |origin| - position
      {
        var done := TrailerTurn(bound);
        if done.Err? {
          return Err(done.error);
        }
        if done.value {
          return Ok(());
        }
      }
    }

    /** The data of one chunk and the CRLF after it. */
    method DrainChunk(size: nat) returns (r: Result<(), HttpError>)
      requires Valid()
      modifies this`buffer, this`position, this`peak, stream`incoming, stream`failed
      ensures stream.failed <==> old(stream.failed) || r == Err(Io)
      ensures Valid() && old(position) <= position
      ensures r.Ok? ==> SkipChunk(old(Logical()), size) == Some(Logical())
      ensures r.Err? && r != Err(Io) ==> SkipChunk(old(Logical()), size).None?
      ensures r.Ok? ==> |buffer| <= Max(|old(buffer)|, LEFT_OVER)
      ensures peak <= Max(old(peak), 2 + 1023)
    {
      ghost var all := Logical();
      r := DiscardExact(size);
      if r.Err? {
        return;
      }
      assert |all| >= size + 2 ==> Logical()[..2] == all[size..size + 2];
      var terminator, _ := ReadLine(2);
      if terminator.Err? {
        return Err(terminator.error);
      }
      if terminator.value != [] {
        return Err(InvalidChunkedBody);
      }
    }

    /** The size line of a chunk. */
    method ReadChunkSize(ghost bound: nat) returns (r: Result<nat, HttpError>)
      requires Valid() && |Logical()| <= bound
      modifies this`buffer, this`position, this`peak, stream`incoming, stream`failed
      ensures stream.failed <==> old(stream.failed) || r == Err(Io)
      ensures Valid() && old(position) <= position
      ensures r.Ok? ==> old(position) < position
                        && DecodeChunked(old(Logical()), bound) == AfterSize(r.value, Logical(), bound)
      ensures r.Ok? && DecodeChunked(old(Logical()), CHUNK_LINE).Some? ==>
                AfterSize(r.value, Logical(), CHUNK_LINE).Some?
      ensures r.Err? && r != Err(Io) ==> DecodeChunked(old(Logical()), CHUNK_LINE).None?
      ensures r.Ok? ==> |buffer| <= Max(|old(buffer)|, LEFT_OVER)
      ensures peak <= Max(old(peak), CHUNK_LINE + 1023)
    {
      ghost var rest := Logical();
      var line, _ := ReadLine(CHUNK_LINE);
      if line.Err? {
        return Err(line.error);
      }
      SizeTaken(rest, line.value, bound, CHUNK_LINE);
      assert Logical() == rest[|line.value| + 2..];
      match ChunkSize(line.value)
      case None => r := Err(InvalidChunkedBody);
      case Some(size) => r := Ok(size);
    }

    /** One chunk, or the last one with the trailers; `done` in the second case. */
    method ChunkTurn(ghost bound: nat) returns (r: Result<bool, HttpError>)
      requires Valid() && |Logical()| <= bound
      modifies this`buffer, this`position, this`peak, stream`incoming, stream`failed
      ensures stream.failed <==> old(stream.failed) || r == Err(Io)
      ensures Valid() && old(position) <= position
      ensures r == Ok(true) ==> DecodeChunked(old(Logical()), bound) == Some(Logical())
      ensures r == Ok(false) ==> old(position) < position
                                 && DecodeChunked(old(Logical()), bound) == DecodeChunked(Logical(), bound)
                                 && (DecodeChunked(old(Logical()), CHUNK_LINE).Some? ==>
                                       DecodeChunked(Logical(), CHUNK_LINE).Some?)
      ensures r.Err? && r != Err(Io) ==> DecodeChunked(old(Logical()), CHUNK_LINE).None?
      ensures r.Ok? ==> |buffer| <= Max(|old(buffer)|, LEFT_OVER)
      ensures peak <= Max(old(peak), CHUNK_LINE + 1023)
    {
      var size := ReadChunkSize(bound);
      if size.Err? {
        return Err(size.error);
      }
      if size.value == 0 {
        var drained := DrainTrailers(bound);
        if drained.Err? {
          return Err(drained.error);
        }
        return Ok(true);
      }
      var drained := DrainChunk(size.value);
      if drained.Err? {
        return Err(drained.error);
      }
      r := Ok(false);
    }

    /** Drains a chunked body. Success leaves exactly what the decoder of whole streams leaves; a body
        whose lines all fit in 8192 bytes is refused only by an I/O error. */
    method DrainChunked() returns (r: Result<(), HttpError>)
      requires Valid()
      modifies this`buffer, this`position, this`peak, stream`incoming, stream`failed
      ensures stream.failed <==> old(stream.failed) || r == Err(Io)
      ensures Valid() && old(position) <= position
      ensures r.Ok? ==> DecodeChunked(old(Logical()), |old(Logical())|) == Some(Logical())
      ensures r.Err? && r != Err(Io) ==> DecodeChunked(old(Logical()), CHUNK_LINE).None?
      ensures r.Ok? ==> |buffer| <= Max(|old(buffer)|, LEFT_OVER)
      ensures peak <= Max(old(peak), CHUNK_LINE + 1023)
    {
      ghost var all, bound := Logical(), |Logical()|;
      while true
        invariant Valid() && old(position) <= position && stream.failed == old(stream.failed)
        invariant |buffer| <= Max(|old(buffer)|, LEFT_OVER)
        invariant DecodeChunked(Logical(), bound) == DecodeChunked(all, bound)
        invariant DecodeChunked(all, CHUNK_LINE).Some? ==> DecodeChunked(Logical(), CHUNK_LINE).Some?
        invariant peak <= Max(old(peak), CHUNK_LINE + 1023)
        decreases |origin| - position
      {
        var done := ChunkTurn(bound);
        if done.Err? {
          return Err(done.error);
        }
        if done.value {
          return Ok(());
        }
      }
    }

    /** Reads past the body of a response. */
    method DrainResponseBody(response: ResponseHead) returns (r: Result<(), HttpError>)
      requires Valid()
      modifies this`buffer, this`position, this`peak, stream`incoming, stream`failed
      ensures stream.failed <==> old(stream.failed) || r == Err(Io)
      ensures Valid()
      ensures old(position) <= position
      ensures r.Ok? ==> AfterBody(FramingOf(response), old(Logical()), |old(Logical())|) == Some(Logical())
      ensures r.Err? && r != Err(Io) ==> AfterBody(FramingOf(response), old(Logical()), CHUNK_LINE).None?
      ensures r.Ok? ==> |buffer| <= Max(|old(buffer)|, LEFT_OVER)
      ensures peak <= Max(old(peak), CHUNK_LINE + 1023)
    {
      if IsChunked(response) {
        r := DrainChunked();
      } else {
        var length := ReadContentLength(response);
        match length
        case Err(e) => r := Err(e);
        case Ok(None) => r := Ok(());
        case Ok(Some(n)) => r := DiscardExact(n);
      }
    }

    /** `into_parts`. */
    method IntoParts() returns (socket: TcpStream, rest: Bytes)
      requires Valid()
      ensures socket == stream && rest == buffer
    {
      return stream, buffer;
    }
  }

  /** `read_head_bytes`: the head and whatever arrived with it. Absent I/O errors the outcome, and
      where the head ends, depend on the stream alone. */
  method ReadHeadBytes(reader: TcpStream, maxHeaderBytes: nat) returns (r: Result<Bytes, HttpError>)
    modifies reader`incoming, reader`failed
    ensures reader.failed <==> old(reader.failed) || r == Err(Io)
    ensures r.Ok? ==> old(reader.incoming) == r.value + reader.incoming && |r.value| <= maxHeaderBytes
    ensures r.Ok? ==> HeaderEnd(r.value) == HeaderEnd(old(reader.incoming))
    ensures r != Err(Io) ==>
              match HeadWithin(old(reader.incoming), maxHeaderBytes)
              case Err(e) => r == Err(e)
              case Ok(head) => r.Ok? && head <= r.value && HeaderEnd(r.value) == Some(|head|)
  {
    ghost var all := reader.incoming;
    var bytes: Bytes := [];
    while true
      invariant all == bytes + reader.incoming && reader.failed == old(reader.failed)
      invariant |bytes| <= maxHeaderBytes
      decreases |reader.incoming|
    {
      HeadInBuffer(bytes, reader.incoming, maxHeaderBytes);
      if HeaderEnd(bytes).Some? {
        return Ok(bytes);
      }
      if |bytes| >= maxHeaderBytes {
        return Err(HeaderTooLarge);
      }
      var piece := reader.Read(Min(8192, maxHeaderBytes - |bytes|));
      if piece.None? {
        return Err(Io);
      }
      if piece.value == [] {
        return Err(UnexpectedEof);
      }
      assert bytes + (piece.value + reader.incoming) == (bytes + piece.value) + reader.incoming;
      bytes := bytes + piece.value;
    }
  }

  /** `read_request_head`: the parsed head, and the bytes the client sent early. Head, early bytes
      and what is still to be read make up the client's stream. */
  method ReadRequestHead(reader: TcpStream, maxHeaderBytes: nat, parse: RequestParser)
      returns (r: Result<(RequestHead, Bytes), HttpError>)
    modifies reader`incoming, reader`failed
    ensures reader.failed <==> old(reader.failed) || r == Err(Io)
    ensures r.Ok? ==>
              var e := HeaderEnd(old(reader.incoming));
              && e.Some? && e.value <= maxHeaderBytes
              && parse(old(reader.incoming)[..e.value]) == Some(r.value.0)
              && r.value.1 + reader.incoming == old(reader.incoming)[e.value..]
    ensures r != Err(Io) ==>
              match HeadWithin(old(reader.incoming), maxHeaderBytes)
              case Err(e) => r == Err(e)
              case Ok(head) => (r.Ok? <==> parse(head).Some?) && (r.Err? ==> r == Err(Parse))
  {
    ghost var all := reader.incoming;
    var read := ReadHeadBytes(reader, maxHeaderBytes);
    if read.Err? {
      return Err(read.error);
    }
    var bytes := read.value;
    var end := HeaderEnd(bytes).value;
    assert bytes[..end] == all[..end];
    assert bytes[end..] + reader.incoming == all[end..];
    match parse(bytes[..end])
    case None => r := Err(Parse);
    case Some(head) => r := Ok((head, bytes[end..]));
  }
}
