/** The chunked transfer coding (section 7.1 of RFC 9112) as a function of a whole byte stream. */
module Chunked {
  import opened Wire
  import opened Numerals

  const SEMICOLON: byte := 59

  // ---------------------------------------------------------------------------------------------
  // The decoder

  /** The size a chunk-size line announces, `None` if the proxy rejects the line. */
  function ChunkSize(line: Bytes): Option<nat> {
    if Utf8(line) then ParseUint(Trim(Split(SEMICOLON, line)[0]), 16, USIZE_MAX) else None
  }

  /** The line a stream starts with, if its CRLF ends within `limit` bytes. */
  function LineWithin(s: Bytes, limit: nat): (r: Option<Bytes>)
    ensures r.Some? ==> |r.value| + 2 <= |s|
  {
    match Find(CRLF, s)
    case None => None
    case Some(i) => if i + 2 <= limit then Some(s[..i]) else None
  }

  /** What is left of `s` after its trailer lines and the empty line that ends them. */
  function SkipTrailers(s: Bytes, limit: nat): (r: Option<Bytes>)
    ensures r.Some? ==> |r.value| <= |s|
    decreases |s|
  {
    match LineWithin(s, limit)
    case None => None
    case Some(line) =>
      var rest := s[|line| + 2..];
      if line == [] then Some(rest) else SkipTrailers(rest, limit)
  }

  /** What is left after the data of one chunk and the CRLF that ends it. */
  function SkipChunk(s: Bytes, size: nat): (r: Option<Bytes>)
    ensures r.Some? ==> size + 2 <= |s| && r.value == s[size + 2..]
  {
    if |s| < size + 2 || s[size..size + 2] != CRLF then None else Some(s[size + 2..])
  }

  /** What is left of `s` after the chunked body it starts with, when no line with its CRLF is longer
      than `limit`; `None` if `s` starts with no such body. */
  function DecodeChunked(s: Bytes, limit: nat): (r: Option<Bytes>)
    ensures r.Some? ==> |r.value| <= |s|
    decreases |s|, 1
  {
    match LineWithin(s, limit)
    case None => None
    case Some(line) =>
      match ChunkSize(line)
      case None => None
      case Some(size) => AfterSize(size, s[|line| + 2..], limit)
  }

  /** What is left after the size line of a chunk has been read. */
  function AfterSize(size: nat, s: Bytes, limit: nat): (r: Option<Bytes>)
    ensures r.Some? ==> |r.value| <= |s|
    decreases |s|, 2
  {
    if size == 0 then SkipTrailers(s, limit)
    else
      match SkipChunk(s, size)
      case None => None
      case Some(next) => DecodeChunked(next, limit)
  }

  ghost predicate IsSuffix(t: Bytes, s: Bytes) {
    |t| <= |s| && t == s[|s| - |t|..]
  }

  lemma SuffixOfSuffix(t: Bytes, s: Bytes, n: nat)
    requires n <= |s| && IsSuffix(t, s[n..])
    ensures IsSuffix(t, s)
  {
  }

  /** Decoding only ever takes bytes from the front. */
  lemma {:induction false} SkipTrailersLeavesSuffix(s: Bytes, limit: nat)
    requires SkipTrailers(s, limit).Some?
    ensures IsSuffix(SkipTrailers(s, limit).value, s)
    decreases |s|
  {
    var line := LineWithin(s, limit).value;
    if line != [] {
      SkipTrailersLeavesSuffix(s[|line| + 2..], limit);
      SuffixOfSuffix(SkipTrailers(s, limit).value, s, |line| + 2);
    }
  }

  lemma {:induction false} DecodeLeavesSuffix(s: Bytes, limit: nat)
    requires DecodeChunked(s, limit).Some?
    ensures IsSuffix(DecodeChunked(s, limit).value, s)
    decreases |s|, 1
  {
    var line := LineWithin(s, limit).value;
    var size := ChunkSize(line).value;
    AfterSizeLeavesSuffix(size, s[|line| + 2..], limit);
    SuffixOfSuffix(DecodeChunked(s, limit).value, s, |line| + 2);
  }

  lemma {:induction false} AfterSizeLeavesSuffix(size: nat, s: Bytes, limit: nat)
    requires AfterSize(size, s, limit).Some?
    ensures IsSuffix(AfterSize(size, s, limit).value, s)
    decreases |s|, 2
  {
    if size == 0 {
      SkipTrailersLeavesSuffix(s, limit);
    } else {
      DecodeLeavesSuffix(s[size + 2..], limit);
      SuffixOfSuffix(AfterSize(size, s, limit).value, s, size + 2);
    }
  }

  /** `s` starts with this line, which ends at the first CRLF. */
  ghost predicate StartsWithLine(s: Bytes, line: Bytes) {
    Find(CRLF, s) == Some(|line|) && line + CRLF <= s
  }

  /** One turn of the trailer loop: reading the line leaves the same question about the rest. */
  lemma TrailerStep(s: Bytes, line: Bytes, limit: nat)
    requires StartsWithLine(s, line)
    ensures |line| + 2 <= limit ==>
              SkipTrailers(s, limit) ==
              if line == [] then Some(s[|line| + 2..]) else SkipTrailers(s[|line| + 2..], limit)
    ensures SkipTrailers(s, limit).Some? ==> |line| + 2 <= limit
  {
    assert line == s[..|line|];
  }

  /** One turn of the chunk loop. */
  lemma ChunkStep(s: Bytes, line: Bytes, limit: nat)
    requires StartsWithLine(s, line)
    ensures |line| + 2 <= limit ==>
              DecodeChunked(s, limit) ==
              match ChunkSize(line)
              case None => None
              case Some(size) => AfterSize(size, s[|line| + 2..], limit)
    ensures DecodeChunked(s, limit).Some? ==> |line| + 2 <= limit
  {
    assert line == s[..|line|];
    if |line| + 2 <= limit {
      assert LineWithin(s, limit) == Some(line);
    }
  }

  /** What a trailer line that has been read tells about the trailers, without a limit and within one. */
  lemma TrailerTaken(s: Bytes, line: Bytes, bound: nat, limit: nat)
    requires StartsWithLine(s, line) && |s| <= bound
    ensures var rest := s[|line| + 2..];
            && (line == [] ==> SkipTrailers(s, bound) == Some(rest))
            && (line != [] ==> SkipTrailers(s, bound) == SkipTrailers(rest, bound))
            && (line != [] && SkipTrailers(s, limit).Some? ==> SkipTrailers(rest, limit).Some?)
  {
    TrailerStep(s, line, bound);
    TrailerStep(s, line, limit);
  }

  /** What a size line that has been read tells about the body, without a limit and within one. */
  lemma SizeTaken(s: Bytes, line: Bytes, bound: nat, limit: nat)
    requires StartsWithLine(s, line) && |s| <= bound
    ensures match ChunkSize(line)
            case None => DecodeChunked(s, limit).None?
            case Some(size) =>
              var rest := s[|line| + 2..];
              && DecodeChunked(s, bound) == AfterSize(size, rest, bound)
              && (DecodeChunked(s, limit).Some? ==> AfterSize(size, rest, limit).Some?)
  {
    ChunkStep(s, line, bound);
    ChunkStep(s, line, limit);
  }

  /** Allowing longer lines never changes a decoding that succeeds. */
  lemma {:induction false} SkipTrailersMonotone(s: Bytes, limit: nat, more: nat)
    requires limit <= more && SkipTrailers(s, limit).Some?
    ensures SkipTrailers(s, more) == SkipTrailers(s, limit)
    decreases |s|
  {
    var line := LineWithin(s, limit).value;
    if line != [] {
      SkipTrailersMonotone(s[|line| + 2..], limit, more);
    }
  }

  lemma {:induction false} DecodeMonotone(s: Bytes, limit: nat, more: nat)
    requires limit <= more && DecodeChunked(s, limit).Some?
    ensures DecodeChunked(s, more) == DecodeChunked(s, limit)
    decreases |s|, 1
  {
    var line := LineWithin(s, limit).value;
    assert LineWithin(s, more) == Some(line);
    AfterSizeMonotone(ChunkSize(line).value, s[|line| + 2..], limit, more);
  }

  lemma {:induction false} AfterSizeMonotone(size: nat, s: Bytes, limit: nat, more: nat)
    requires limit <= more && AfterSize(size, s, limit).Some?
    ensures AfterSize(size, s, more) == AfterSize(size, s, limit)
    decreases |s|, 2
  {
    if size == 0 {
      SkipTrailersMonotone(s, limit, more);
    } else {
      DecodeMonotone(s[size + 2..], limit, more);
    }
  }

  /** Limits beyond the length of the stream are all the same: no line of it can be longer. */
  lemma {:induction false} SkipTrailersUnlimited(s: Bytes, a: nat, b: nat)
    requires |s| <= a && |s| <= b
    ensures SkipTrailers(s, a) == SkipTrailers(s, b)
    decreases |s|
  {
    assert LineWithin(s, a) == LineWithin(s, b);
    if LineWithin(s, a).Some? {
      SkipTrailersUnlimited(s[|LineWithin(s, a).value| + 2..], a, b);
    }
  }

  lemma {:induction false} DecodeUnlimited(s: Bytes, a: nat, b: nat)
    requires |s| <= a && |s| <= b
    ensures DecodeChunked(s, a) == DecodeChunked(s, b)
    decreases |s|, 1
  {
    assert LineWithin(s, a) == LineWithin(s, b);
    match LineWithin(s, a)
    case None =>
    case Some(line) =>
      match ChunkSize(line)
      case None =>
      case Some(size) => AfterSizeUnlimited(size, s[|line| + 2..], a, b);
  }

  lemma {:induction false} AfterSizeUnlimited(size: nat, s: Bytes, a: nat, b: nat)
    requires |s| <= a && |s| <= b
    ensures AfterSize(size, s, a) == AfterSize(size, s, b)
    decreases |s|, 2
  {
    SkipTrailersUnlimited(s, a, b);
    if SkipChunk(s, size).Some? {
      DecodeUnlimited(s[size + 2..], a, b);
    }
  }

  /** A decoding that succeeds under some limit is the decoding without any. */
  lemma DecodeWithoutLimit(s: Bytes, limit: nat)
    requires DecodeChunked(s, limit).Some?
    ensures DecodeChunked(s, |s|) == DecodeChunked(s, limit)
  {
    if limit <= |s| {
      DecodeMonotone(s, limit, |s|);
    } else {
      DecodeUnlimited(s, limit, |s|);
    }
  }

  // ---------------------------------------------------------------------------------------------
  // The encoder

  /** A chunk-size line: hexadecimal digits in any spelling, optional blanks, optional extensions. */
  datatype SizeLine = SizeLine(digits: Bytes, blank: Bytes, extension: Bytes) {
    function Text(): Bytes { digits + blank + extension }

    ghost predicate Announces(size: nat) {
      && digits != [] && Spells(digits, size, 16)
      && size < 0x1_0000_0000_0000_0000
      && (forall c | c in blank :: c == 9 || c == 32)
      && (extension != [] ==> extension[0] == ';' as int)
      && Utf8(extension)
      && Find(CRLF, extension).None?
    }
  }

  datatype Chunk = Chunk(line: SizeLine, data: Bytes)

  /** A chunked body: its chunks, the line of the last chunk and the trailer lines. */
  datatype Body = Body(chunks: seq<Chunk>, last: SizeLine, trailers: seq<Bytes>)

  ghost predicate WellFormed(b: Body) {
    && (forall i | 0 <= i < |b.chunks| :: b.chunks[i].data != [] && b.chunks[i].line.Announces(|b.chunks[i].data|))
    && b.last.Announces(0)
    && (forall i | 0 <= i < |b.trailers| :: b.trailers[i] != [] && Find(CRLF, b.trailers[i]).None?)
  }

  /** Every line, with its CRLF, takes at most `limit` bytes. */
  ghost predicate Fits(b: Body, limit: nat) {
    && (forall i | 0 <= i < |b.chunks| :: |b.chunks[i].line.Text()| + 2 <= limit)
    && |b.last.Text()| + 2 <= limit
    && (forall i | 0 <= i < |b.trailers| :: |b.trailers[i]| + 2 <= limit)
    && 2 <= limit
  }

  function EncodeTrailers(trailers: seq<Bytes>): Bytes {
    if trailers == [] then CRLF else trailers[0] + CRLF + EncodeTrailers(trailers[1..])
  }

  function Encode(b: Body): Bytes
    decreases |b.chunks|
  {
    if b.chunks == [] then b.last.Text() + CRLF + EncodeTrailers(b.trailers)
    else
      var c := b.chunks[0];
      c.line.Text() + CRLF + c.data + CRLF + Encode(b.(chunks := b.chunks[1..]))
  }

  // ---------------------------------------------------------------------------------------------
  // Round trip

  /** A line without CRLF in it ends at the first CRLF after it. */
  lemma FindLineEnd(line: Bytes, rest: Bytes)
    requires Find(CRLF, line).None?
    ensures Find(CRLF, line + CRLF + rest) == Some(|line|)
  {
    var s := line + CRLF + rest;
    FindMeaning(CRLF, line);
    assert s[|line|..|line| + 2] == CRLF;
    forall j | 0 <= j < |line| ensures !Occurs(CRLF, s, j) {
      if j + 2 <= |line| {
        assert s == line + (CRLF + rest);
        OccursInPrefix(CRLF, line, CRLF + rest, j);
      } else {
        assert s[j..j + 2][1] == s[j + 1] == CR != CRLF[1];
      }
    }
    FirstOccursUnique(CRLF, s, |line|);
  }

  lemma LineAt(line: Bytes, rest: Bytes, limit: nat)
    requires Find(CRLF, line).None? && |line| + 2 <= limit
    ensures LineWithin(line + CRLF + rest, limit) == Some(line)
    ensures (line + CRLF + rest)[|line| + 2..] == rest
  {
    FindLineEnd(line, rest);
    assert (line + CRLF + rest)[..|line|] == line;
  }

  /** Bytes below CR contain no CRLF, nor can they combine into one with what follows. */
  lemma NoBreakBefore(a: Bytes, b: Bytes)
    requires forall c | c in a :: c != CR
    requires Find(CRLF, b).None?
    ensures Find(CRLF, a + b).None?
  {
    FindMeaning(CRLF, b);
    forall i ensures !Occurs(CRLF, a + b, i) {
      if 0 <= i && i + 2 <= |a + b| {
        if i < |a| {
          assert (a + b)[i..i + 2][0] == a[i];
          assert a[i] in a;
        } else {
          assert (a + b)[i..i + 2] == b[i - |a|..i - |a| + 2];
          assert !Occurs(CRLF, b, i - |a|);
        }
      }
    }
  }

  lemma PlainFront(l: SizeLine, size: nat)
    requires l.Announces(size)
    ensures forall c | c in l.digits + l.blank :: c != CR && c != SEMICOLON && c < 0x80
    ensures forall c | c in l.digits :: c < 0x80 && !AsciiSpace(c)
    ensures l.digits[0] != 43
  {
    SpelledInDigits(l.digits, size, 16);
    assert l.digits[0] in l.digits;
  }

  /** A size line is read back as the size it announces. */
  lemma SizeLineRead(l: SizeLine, size: nat)
    requires l.Announces(size)
    ensures ChunkSize(l.Text()) == Some(size)
    ensures Find(CRLF, l.Text()).None?
  {
    var front := l.digits + l.blank;
    PlainFront(l, size);
    NoBreakBefore(front, l.extension);
    AsciiThenUtf8(front, l.extension);
    FirstPiece(SEMICOLON, front, l.extension);
    TrimPadded(l.digits, l.blank);
    ParseUintMeaning(l.digits, 16, USIZE_MAX, size);
  }

  lemma {:induction false} TrailersRoundTrip(trailers: seq<Bytes>, rest: Bytes, limit: nat)
    requires forall i | 0 <= i < |trailers| ::
               trailers[i] != [] && Find(CRLF, trailers[i]).None? && |trailers[i]| + 2 <= limit
    requires 2 <= limit
    ensures SkipTrailers(EncodeTrailers(trailers) + rest, limit) == Some(rest)
  {
    if trailers == [] {
      LineAt([], rest, limit);
      assert [] + CRLF + rest == EncodeTrailers(trailers) + rest;
    } else {
      var others := EncodeTrailers(trailers[1..]);
      LineAt(trailers[0], others + rest, limit);
      assert EncodeTrailers(trailers) + rest == trailers[0] + CRLF + (others + rest);
      TrailersRoundTrip(trailers[1..], rest, limit);
    }
  }

  lemma DecodeOneChunk(c: Chunk, next: Bytes, limit: nat)
    requires c.data != [] && c.line.Announces(|c.data|) && |c.line.Text()| + 2 <= limit
    ensures DecodeChunked(c.line.Text() + CRLF + (c.data + CRLF + next), limit) == DecodeChunked(next, limit)
  {
    var after := c.data + CRLF + next;
    SizeLineRead(c.line, |c.data|);
    LineAt(c.line.Text(), after, limit);
    assert after[|c.data|..|c.data| + 2] == CRLF;
    assert after[|c.data| + 2..] == next;
    assert SkipChunk(after, |c.data|) == Some(next);
  }

  lemma DecodeLastChunk(last: SizeLine, after: Bytes, limit: nat)
    requires last.Announces(0) && |last.Text()| + 2 <= limit
    ensures DecodeChunked(last.Text() + CRLF + after, limit) == SkipTrailers(after, limit)
  {
    SizeLineRead(last, 0);
    LineAt(last.Text(), after, limit);
  }

  /** Decoding what section 7.1 of RFC 9112 encodes leaves exactly the bytes that follow the body. */
  lemma {:induction false} EncodeThenDecode(b: Body, rest: Bytes, limit: nat)
    requires WellFormed(b) && Fits(b, limit)
    ensures DecodeChunked(Encode(b) + rest, limit) == Some(rest)
    decreases |b.chunks|
  {
    var s := Encode(b) + rest;
    if b.chunks == [] {
      assert s == b.last.Text() + CRLF + (EncodeTrailers(b.trailers) + rest);
      DecodeLastChunk(b.last, EncodeTrailers(b.trailers) + rest, limit);
      TrailersRoundTrip(b.trailers, rest, limit);
    } else {
      var c := b.chunks[0];
      var tail := b.(chunks := b.chunks[1..]);
      assert s == c.line.Text() + CRLF + (c.data + CRLF + (Encode(tail) + rest));
      DecodeOneChunk(c, Encode(tail) + rest, limit);
      EncodeThenDecode(tail, rest, limit);
    }
  }

  /** Every size that fits can be announced by printing it in hexadecimal, in any mix of upper and lower case. */
  lemma PrintedSizeAnnounces(size: nat, digits: Bytes)
    requires size < 0x1_0000_0000_0000_0000 && EqIgnoreCase(digits, Print(size, 16))
    ensures SizeLine(digits, [], []).Announces(size)
  {
    PrintSpells(size, 16);
    SpellsInAnyCase(Print(size, 16), digits, size, 16);
  }
}
