/** How far the outcome of `read_line` depends on the sizes of the reads (`src/http1.rs`). */
module Lines {
  import opened Wire

  datatype LineOutcome = Line(text: Bytes) | TooLong | Ended | Waiting

  /** Size of the next piece when the network would like it to be `size`. */
  function Piece(size: nat, unread: Bytes): (n: nat)
    requires unread != []
    ensures 1 <= n <= |unread| && n <= 1024
  {
    Max(1, Min(size, Min(1024, |unread|)))
  }

  /** `read_line(max)` on a given buffer and unread stream, when the network delivers pieces of these
      sizes; `Waiting` if it is given too few of them. */
  function LineRun(buffer: Bytes, unread: Bytes, max: nat, sizes: seq<nat>): LineOutcome
    decreases |unread|
  {
    var found := Find(CRLF, buffer);
    if found.Some? then Line(buffer[..found.value])
    else if |buffer| >= max then TooLong
    else if unread == [] then Ended
    else if sizes == [] then Waiting
    else
      var n := Piece(sizes[0], unread);
      LineRun(buffer + unread[..n], unread[n..], max, sizes[1..])
  }

  /** The buffer of the same run when it stops reading. */
  function LineBuffer(buffer: Bytes, unread: Bytes, max: nat, sizes: seq<nat>): Bytes
    decreases |unread|
  {
    if Find(CRLF, buffer).Some? || |buffer| >= max || unread == [] || sizes == [] then buffer
    else
      var n := Piece(sizes[0], unread);
      LineBuffer(buffer + unread[..n], unread[n..], max, sizes[1..])
  }

  /** The most that a read of a line leaves in a buffer that was shorter. */
  const LEFT_OVER: nat := 1023

  /** What stays in the buffer after a line was found: part of what was there before, or less than the last
      read brought. */
  lemma {:induction false} LineLeaves(buffer: Bytes, unread: Bytes, max: nat, sizes: seq<nat>)
    requires LineRun(buffer, unread, max, sizes).Line?
    ensures |LineBuffer(buffer, unread, max, sizes)|
            <= |LineRun(buffer, unread, max, sizes).text| + 2 + Max(|buffer|, LEFT_OVER)
    decreases |unread|
  {
    if Find(CRLF, buffer).None? {
      FreshLineLeaves(buffer, unread, max, sizes);
    }
  }

  /** The same when the line is not in the buffer yet. */
  lemma {:induction false} FreshLineLeaves(buffer: Bytes, unread: Bytes, max: nat, sizes: seq<nat>)
    requires LineRun(buffer, unread, max, sizes).Line? && Find(CRLF, buffer).None?
    ensures |LineBuffer(buffer, unread, max, sizes)|
            <= |LineRun(buffer, unread, max, sizes).text| + 2 + LEFT_OVER
    decreases |unread|
  {
    var n := Piece(sizes[0], unread);
    var b, u := buffer + unread[..n], unread[n..];
    if Find(CRLF, b).Some? {
      FindInPrefix(CRLF, buffer, unread[..n]);
    } else {
      FreshLineLeaves(b, u, max, sizes[1..]);
    }
  }

  /** What one read does to the logical stream: nothing. */
  lemma ReadKeepsStream(buffer: Bytes, unread: Bytes, n: nat)
    requires n <= |unread|
    ensures (buffer + unread[..n]) + unread[n..] == buffer + unread
  {
  }

  /** The first piece read. */
  lemma LineRunStep(buffer: Bytes, unread: Bytes, max: nat, n: nat, more: seq<nat>)
    requires Find(CRLF, buffer).None? && |buffer| < max
    requires 1 <= n <= |unread| && n <= 1024
    ensures LineRun(buffer, unread, max, [n] + more) == LineRun(buffer + unread[..n], unread[n..], max, more)
    ensures LineBuffer(buffer, unread, max, [n] + more) == LineBuffer(buffer + unread[..n], unread[n..], max, more)
  {
    assert ([n] + more)[1..] == more;
  }

  /** Reads of these sizes lead from one buffer and unread stream to another. */
  ghost predicate LeadsTo(buffer: Bytes, unread: Bytes, max: nat, sizes: seq<nat>, buffer': Bytes, unread': Bytes) {
    forall more ::
      && LineRun(buffer, unread, max, sizes + more) == LineRun(buffer', unread', max, more)
      && LineBuffer(buffer, unread, max, sizes + more) == LineBuffer(buffer', unread', max, more)
  }

  lemma LeadsToNothing(buffer: Bytes, unread: Bytes, max: nat)
    ensures LeadsTo(buffer, unread, max, [], buffer, unread)
  {
    assert forall more: seq<nat> :: [] + more == more;
  }

  lemma LeadsToNext(buffer: Bytes, unread: Bytes, max: nat, sizes: seq<nat>, b: Bytes, u: Bytes, n: nat)
    requires LeadsTo(buffer, unread, max, sizes, b, u)
    requires Find(CRLF, b).None? && |b| < max
    requires 1 <= n <= |u| && n <= 1024
    ensures LeadsTo(buffer, unread, max, sizes + [n], b + u[..n], u[n..])
  {
    forall more
      ensures LineRun(buffer, unread, max, sizes + [n] + more) == LineRun(b + u[..n], u[n..], max, more)
      ensures LineBuffer(buffer, unread, max, sizes + [n] + more) == LineBuffer(b + u[..n], u[n..], max, more)
    {
      assert sizes + [n] + more == sizes + ([n] + more);
      LineRunStep(b, u, max, n, more);
    }
  }

  lemma LeadsToEnd(buffer: Bytes, unread: Bytes, max: nat, sizes: seq<nat>, b: Bytes, u: Bytes)
    requires LeadsTo(buffer, unread, max, sizes, b, u)
    ensures LineRun(buffer, unread, max, sizes) == LineRun(b, u, max, [])
    ensures LineBuffer(buffer, unread, max, sizes) == LineBuffer(b, u, max, [])
  {
    assert sizes + [] == sizes;
  }

  /** A line whose CRLF ends within `max`, or is already buffered, is found however it arrives. */
  lemma {:induction false} ShortLine(buffer: Bytes, unread: Bytes, max: nat, sizes: seq<nat>, i: nat)
    requires Find(CRLF, buffer + unread) == Some(i) && i + 2 <= Max(max, |buffer|)
    ensures LineRun(buffer, unread, max, sizes) in {Waiting, Line((buffer + unread)[..i])}
    decreases |unread|
  {
    FindInPrefix(CRLF, buffer, unread);
    assert Find(CRLF, buffer).Some? ==> buffer[..i] == (buffer + unread)[..i];
    if Find(CRLF, buffer).None? && unread != [] && sizes != [] {
      var n := Piece(sizes[0], unread);
      ReadKeepsStream(buffer, unread, n);
      ShortLine(buffer + unread[..n], unread[n..], max, sizes[1..], i);
    }
  }

  /** A line that cannot be complete after the last permitted read is refused however it arrives. */
  lemma {:induction false} LongLine(buffer: Bytes, unread: Bytes, max: nat, sizes: seq<nat>, i: nat)
    requires Find(CRLF, buffer + unread) == Some(i) && |buffer| < i + 2
    requires |buffer| < max ==> max + 1023 < i + 2
    ensures LineRun(buffer, unread, max, sizes) in {Waiting, TooLong}
    decreases |unread|
  {
    FindInPrefix(CRLF, buffer, unread);
    if |buffer| < max && sizes != [] {
      var n := Piece(sizes[0], unread);
      ReadKeepsStream(buffer, unread, n);
      LongLine(buffer + unread[..n], unread[n..], max, sizes[1..], i);
    }
  }

  /** Without a CRLF the outcome depends on the length of the stream only. */
  lemma {:induction false} NoLine(buffer: Bytes, unread: Bytes, max: nat, sizes: seq<nat>)
    requires Find(CRLF, buffer + unread).None?
    ensures LineRun(buffer, unread, max, sizes) in {Waiting, if |buffer + unread| >= max then TooLong else Ended}
    decreases |unread|
  {
    FindInPrefix(CRLF, buffer, unread);
    if |buffer| < max && unread != [] && sizes != [] {
      var n := Piece(sizes[0], unread);
      ReadKeepsStream(buffer, unread, n);
      NoLine(buffer + unread[..n], unread[n..], max, sizes[1..]);
    }
  }

  /** A line that has not arrived entirely is not found. */
  lemma NotYet(buffer: Bytes, unread: Bytes)
    requires Find(CRLF, buffer + unread).Some? && |buffer| < Find(CRLF, buffer + unread).value + 2
    ensures Find(CRLF, buffer).None? && unread != []
  {
    FindInPrefix(CRLF, buffer, unread);
  }

  function Ones(k: nat): seq<nat> { if k == 0 then [] else [1] + Ones(k - 1) }

  /** Byte by byte: `k` reads of one byte, all before the line is complete. */
  lemma {:induction false} Trickle(buffer: Bytes, unread: Bytes, max: nat, k: nat, more: seq<nat>)
    requires Find(CRLF, buffer + unread).Some? && |buffer| + k < Find(CRLF, buffer + unread).value + 2
    requires |buffer| + k <= max
    ensures k <= |unread|
    ensures LineRun(buffer, unread, max, Ones(k) + more) == LineRun(buffer + unread[..k], unread[k..], max, more)
    decreases k
  {
    if k == 0 {
      assert Ones(k) + more == more && buffer + unread[..k] == buffer;
    } else {
      NotYet(buffer, unread);
      ReadKeepsStream(buffer, unread, 1);
      var fewer := Ones(k - 1) + more;
      assert Ones(k) + more == [1] + fewer;
      LineRunStep(buffer, unread, max, 1, fewer);
      Trickle(buffer + unread[..1], unread[1..], max, k - 1, more);
      OneThenMore(buffer, unread, k);
    }
  }

  lemma OneThenMore(buffer: Bytes, unread: Bytes, k: nat)
    requires 1 <= k <= |unread|
    ensures (buffer + unread[..1]) + unread[1..][..k - 1] == buffer + unread[..k]
    ensures unread[1..][k - 1..] == unread[k..]
  {
  }

  /** In between both outcomes can happen: the line is refused when its bytes trickle in, and found
      when the last permitted read brings enough of them. */
  lemma EitherOutcome(buffer: Bytes, unread: Bytes, max: nat, i: nat) returns (slow: seq<nat>, fast: seq<nat>)
    requires Find(CRLF, buffer + unread) == Some(i)
    requires |buffer| < max < i + 2 <= max + 1023
    ensures LineRun(buffer, unread, max, slow) == TooLong
    ensures LineRun(buffer, unread, max, fast) == Line((buffer + unread)[..i])
  {
    slow := SlowRun(buffer, unread, max, i);
    fast := FastRun(buffer, unread, max, i);
  }

  lemma SlowRun(buffer: Bytes, unread: Bytes, max: nat, i: nat) returns (sizes: seq<nat>)
    requires Find(CRLF, buffer + unread) == Some(i) && |buffer| < max < i + 2
    ensures LineRun(buffer, unread, max, sizes) == TooLong
  {
    var k := max - |buffer|;
    sizes := Ones(k) + [];
    Trickle(buffer, unread, max, k, []);
    ReadKeepsStream(buffer, unread, k);
    FindInPrefix(CRLF, buffer + unread[..k], unread[k..]);
  }

  lemma FastRun(buffer: Bytes, unread: Bytes, max: nat, i: nat) returns (sizes: seq<nat>)
    requires Find(CRLF, buffer + unread) == Some(i) && |buffer| < max < i + 2 <= max + 1023
    ensures LineRun(buffer, unread, max, sizes) == Line((buffer + unread)[..i])
  {
    var k := max - 1 - |buffer|;
    sizes := Ones(k) + [1024];
    Trickle(buffer, unread, max, k, [1024]);
    ReadKeepsStream(buffer, unread, k);
    LastRead(buffer + unread[..k], unread[k..], max, i);
  }

  /** A last read of up to 1024 bytes that reaches the end of the line. */
  lemma LastRead(buffer: Bytes, unread: Bytes, max: nat, i: nat)
    requires Find(CRLF, buffer + unread) == Some(i)
    requires |buffer| < max && |buffer| < i + 2 <= |buffer| + 1024
    ensures LineRun(buffer, unread, max, [1024]) == Line((buffer + unread)[..i])
  {
    var n := Piece(1024, unread);
    FindInPrefix(CRLF, buffer, unread);
    ReadKeepsStream(buffer, unread, n);
    FindInPrefix(CRLF, buffer + unread[..n], unread[n..]);
    assert (buffer + unread[..n])[..i] == (buffer + unread)[..i];
    assert LineRun(buffer, unread, max, [1024]) == LineRun(buffer + unread[..n], unread[n..], max, [1024][1..]);
  }

  /** A chunk-size line of 8191 zeros. */
  function Zeros(): Bytes { seq(8191, i => 48) }

  lemma ZerosEnd()
    ensures Find(CRLF, Zeros() + CRLF) == Some(8191)
  {
    var s := Zeros() + CRLF;
    assert s[8191..8193] == CRLF;
    forall j | 0 <= j < 8191 ensures !Occurs(CRLF, s, j) {
      assert s[j..j + 2][0] == 48;
    }
    FirstOccursUnique(CRLF, s, 8191);
  }

  /** The first line the limit of 8192 bytes decides by chance: read from an empty buffer, 8191 zeros and their
      CRLF are refused when they trickle in and accepted when they come in larger pieces. */
  lemma ZerosAreBorderline() returns (slow: seq<nat>, fast: seq<nat>)
    ensures LineRun([], Zeros() + CRLF, 8192, slow) == TooLong
    ensures LineRun([], Zeros() + CRLF, 8192, fast) == Line(Zeros())
  {
    ZerosEnd();
    assert [] + (Zeros() + CRLF) == Zeros() + CRLF;
    slow, fast := EitherOutcome([], Zeros() + CRLF, 8192, 8191);
    assert (Zeros() + CRLF)[..8191] == Zeros();
  }

  /** All complete runs agree, whatever the sizes of the reads. */
  ghost predicate Deterministic(buffer: Bytes, unread: Bytes, max: nat) {
    forall x, y | !LineRun(buffer, unread, max, x).Waiting? && !LineRun(buffer, unread, max, y).Waiting? ::
      LineRun(buffer, unread, max, x) == LineRun(buffer, unread, max, y)
  }

  /** The first line ends after `max` bytes but no later than one more read past `max - 1` can reach. */
  predicate Borderline(buffer: Bytes, unread: Bytes, max: nat) {
    var found := Find(CRLF, buffer + unread);
    found.Some? && |buffer| < max < found.value + 2 <= max + 1023
  }

  /** `read_line` is a function of the byte stream exactly when the line is not borderline. */
  lemma DeterministicUnlessBorderline(buffer: Bytes, unread: Bytes, max: nat)
    ensures Deterministic(buffer, unread, max) <==> !Borderline(buffer, unread, max)
  {
    var found := Find(CRLF, buffer + unread);
    if Borderline(buffer, unread, max) {
      var slow, fast := EitherOutcome(buffer, unread, max, found.value);
      assert LineRun(buffer, unread, max, slow) != LineRun(buffer, unread, max, fast);
    } else {
      forall x, y | !LineRun(buffer, unread, max, x).Waiting? && !LineRun(buffer, unread, max, y).Waiting?
        ensures LineRun(buffer, unread, max, x) == LineRun(buffer, unread, max, y)
      {
        if found.None? {
          NoLine(buffer, unread, max, x);
          NoLine(buffer, unread, max, y);
        } else if found.value + 2 <= Max(max, |buffer|) {
          ShortLine(buffer, unread, max, x, found.value);
          ShortLine(buffer, unread, max, y, found.value);
        } else {
          LongLine(buffer, unread, max, x, found.value);
          LongLine(buffer, unread, max, y, found.value);
        }
      }
    }
  }
}
