/** Bytes as they travel on the wire, and the few text operations the proxy performs on them.

    Text is kept as its UTF-8 bytes throughout: every separator the proxy looks for is ASCII, so
    searching bytes and searching characters find the same places. */
module Wire {

  datatype Option<+T> = None | Some(value: T)

  datatype Result<+T, +E> = Ok(value: T) | Err(error: E)

  type byte = b: int | 0 <= b < 256

  type Bytes = seq<byte>

  const CR: byte := 13
  const LF: byte := 10
  const CRLF: Bytes := [13, 10]
  const CRLFCRLF: Bytes := [13, 10, 13, 10]

  /** `usize::MAX` on the 64-bit targets the proxy is built for. */
  const USIZE_MAX: nat := 0xFFFF_FFFF_FFFF_FFFF

  function Max(a: nat, b: nat): nat { if a < b then b else a }

  function Min(a: nat, b: nat): nat { if a < b then a else b }

  /** The bytes of an ASCII literal; other characters do not occur in those of this project. */
  function Ascii(s: string): (r: Bytes)
    ensures |r| == |s| && forall i | 0 <= i < |s| :: r[i] == if s[i] as int < 128 then s[i] as int else 0
  {
    seq(|s|, i requires 0 <= i < |s| => if s[i] as int < 128 then (s[i] as int) as byte else 0)
  }

  lemma AsciiAppend(a: string, b: string)
    ensures Ascii(a + b) == Ascii(a) + Ascii(b)
  {
  }

  // ---------------------------------------------------------------------------------------------
  // Searching

  ghost predicate Occurs(p: Bytes, s: Bytes, i: int) {
    0 <= i && i + |p| <= |s| && s[i..i + |p|] == p
  }

  ghost predicate FirstOccurs(p: Bytes, s: Bytes, i: nat) {
    Occurs(p, s, i) && forall j | 0 <= j < i :: !Occurs(p, s, j)
  }

  /** `s.windows(p.len()).position(|w| w == p)`. */
  function Find(p: Bytes, s: Bytes): (r: Option<nat>)
    requires p != []
    ensures r.Some? ==> Occurs(p, s, r.value)
  {
    FindFrom(p, s, 0)
  }

  function FindFrom(p: Bytes, s: Bytes, from: nat): (r: Option<nat>)
    requires p != []
    ensures r.Some? ==> Occurs(p, s, r.value)
    decreases |s| - from
  {
    if from + |p| > |s| then None
    else if s[from..from + |p|] == p then Some(from)
    else FindFrom(p, s, from + 1)
  }

  lemma {:induction false} FindFromMeaning(p: Bytes, s: Bytes, from: nat)
    requires p != []
    ensures FindFrom(p, s, from).None? ==> forall j | from <= j :: !Occurs(p, s, j)
    ensures FindFrom(p, s, from).Some? ==>
              from <= FindFrom(p, s, from).value
              && forall j | from <= j < FindFrom(p, s, from).value :: !Occurs(p, s, j)
    decreases |s| - from
  {
    if from + |p| <= |s| && s[from..from + |p|] != p {
      FindFromMeaning(p, s, from + 1);
    }
  }

  /** The position found is the first one, and none is found only if there is none. */
  lemma FindMeaning(p: Bytes, s: Bytes)
    requires p != []
    ensures Find(p, s).Some? ==> FirstOccurs(p, s, Find(p, s).value)
    ensures Find(p, s).None? ==> forall i :: !Occurs(p, s, i)
  {
    FindFromMeaning(p, s, 0);
  }

  lemma FirstOccursUnique(p: Bytes, s: Bytes, i: nat)
    requires p != [] && FirstOccurs(p, s, i)
    ensures Find(p, s) == Some(i)
  {
    FindMeaning(p, s);
    assert Occurs(p, s, i);
  }

  /** Occurrences inside a prefix do not depend on what follows it. */
  lemma OccursInPrefix(p: Bytes, s: Bytes, t: Bytes, i: int)
    requires i + |p| <= |s|
    ensures Occurs(p, s + t, i) == Occurs(p, s, i)
  {
    if 0 <= i {
      assert (s + t)[i..i + |p|] == s[i..i + |p|];
    }
  }

  /** The heart of fragmentation independence: a match found in what has arrived so far is the match
      in the whole stream, and a match of the whole stream that has arrived entirely is found. */
  lemma FindInPrefix(p: Bytes, s: Bytes, t: Bytes)
    requires p != []
    ensures Find(p, s).Some? ==> Find(p, s + t) == Find(p, s)
    ensures Find(p, s + t).Some? && Find(p, s + t).value + |p| <= |s| ==> Find(p, s) == Find(p, s + t)
    ensures Find(p, s + t).None? ==> Find(p, s).None?
    ensures Find(p, s).None? && Find(p, s + t).Some? ==> |s| < Find(p, s + t).value + |p|
  {
    FindMeaning(p, s);
    FindMeaning(p, s + t);
    forall i | i + |p| <= |s| ensures Occurs(p, s + t, i) == Occurs(p, s, i) {
      OccursInPrefix(p, s, t, i);
    }
    if Find(p, s).Some? {
      FirstOccursUnique(p, s + t, Find(p, s).value);
    }
    if Find(p, s + t).Some? && Find(p, s + t).value + |p| <= |s| {
      FirstOccursUnique(p, s, Find(p, s + t).value);
    }
  }

  /** Index of the first byte equal to `c`. */
  function IndexOf(c: byte, s: Bytes): (r: Option<nat>)
    ensures r.Some? ==> r.value < |s| && s[r.value] == c && forall j | 0 <= j < r.value :: s[j] != c
    ensures r.None? <==> c !in s
  {
    IndexFrom(c, s, 0)
  }

  function IndexFrom(c: byte, s: Bytes, from: nat): (r: Option<nat>)
    requires from <= |s|
    ensures r.Some? ==> from <= r.value < |s| && s[r.value] == c && forall j | from <= j < r.value :: s[j] != c
    ensures r.None? ==> forall j | from <= j < |s| :: s[j] != c
    decreases |s| - from
  {
    if from == |s| then None else if s[from] == c then Some(from) else IndexFrom(c, s, from + 1)
  }

  /** Index of the last byte equal to `c`. */
  function LastIndexOf(c: byte, s: Bytes): (r: Option<nat>)
    ensures r.Some? ==> r.value < |s| && s[r.value] == c && forall j | r.value < j < |s| :: s[j] != c
    ensures r.None? <==> c !in s
  {
    LastIndexBelow(c, s, |s|)
  }

  function LastIndexBelow(c: byte, s: Bytes, end: nat): (r: Option<nat>)
    requires end <= |s|
    ensures r.Some? ==> r.value < end && s[r.value] == c && forall j | r.value < j < end :: s[j] != c
    ensures r.None? ==> forall j | 0 <= j < end :: s[j] != c
  {
    if end == 0 then None else if s[end - 1] == c then Some(end - 1) else LastIndexBelow(c, s, end - 1)
  }

  lemma IndexOfAt(c: byte, a: Bytes, b: Bytes)
    requires c !in a
    ensures IndexOf(c, a + [c] + b) == Some(|a|)
  {
    assert (a + [c] + b)[|a|] == c;
  }

  lemma LastIndexOfAt(c: byte, a: Bytes, b: Bytes)
    requires c !in b
    ensures LastIndexOf(c, a + [c] + b) == Some(|a|)
  {
    assert (a + [c] + b)[|a|] == c;
  }

  // ---------------------------------------------------------------------------------------------
  // Splitting

  /** `text.split(sep)`: the pieces between separators, never an empty list. */
  function Split(sep: byte, s: Bytes): (r: seq<Bytes>)
    ensures r != []
    decreases |s|
  {
    match IndexOf(sep, s)
    case None => [s]
    case Some(i) => [s[..i]] + Split(sep, s[i + 1..])
  }

  function Join(sep: byte, parts: seq<Bytes>): Bytes {
    if parts == [] then []
    else if |parts| == 1 then parts[0]
    else parts[0] + [sep] + Join(sep, parts[1..])
  }

  lemma JoinCons(sep: byte, head: Bytes, parts: seq<Bytes>)
    requires parts != []
    ensures Join(sep, [head] + parts) == head + [sep] + Join(sep, parts)
  {
    assert ([head] + parts)[1..] == parts;
  }

  /** Splitting cuts at every separator and nowhere else. */
  lemma {:induction false} SplitMeaning(sep: byte, s: Bytes)
    ensures Join(sep, Split(sep, s)) == s
    ensures forall i | 0 <= i < |Split(sep, s)| :: sep !in Split(sep, s)[i]
    decreases |s|
  {
    match IndexOf(sep, s)
    case None =>
    case Some(i) =>
      var parts := Split(sep, s[i + 1..]);
      SplitMeaning(sep, s[i + 1..]);
      JoinCons(sep, s[..i], parts);
      assert sep !in s[..i];
      assert forall k | 1 <= k < |Split(sep, s)| :: Split(sep, s)[k] == parts[k - 1];
  }

  lemma SplitFirst(sep: byte, a: Bytes, b: Bytes)
    requires sep !in a
    ensures Split(sep, a)[0] == a
    ensures Split(sep, a + [sep] + b) == [a] + Split(sep, b)
  {
    IndexOfAt(sep, a, b);
    var s := a + [sep] + b;
    assert s[..|a|] == a && s[|a| + 1..] == b;
  }

  /** What stands before the first separator is the first piece. */
  lemma FirstPiece(sep: byte, front: Bytes, rest: Bytes)
    requires sep !in front && (rest != [] ==> rest[0] == sep)
    ensures Split(sep, front + rest)[0] == front
  {
    if rest == [] {
      SplitFirst(sep, front, []);
      assert front + rest == front;
    } else {
      SplitFirst(sep, front, rest[1..]);
      assert front + rest == front + [sep] + rest[1..];
    }
  }

  // ---------------------------------------------------------------------------------------------
  // Case

  function Lower(c: byte): byte { if 65 <= c <= 90 then c + 32 else c }

  /** `eq_ignore_ascii_case`. */
  predicate EqIgnoreCase(a: Bytes, b: Bytes) {
    |a| == |b| && forall i | 0 <= i < |a| :: Lower(a[i]) == Lower(b[i])
  }

  /** Two bytes are the same letter exactly if they are equal or an upper and a lower case of it. */
  lemma CaseMeaning(c: byte, d: byte)
    ensures Lower(c) == Lower(d) <==>
            c == d || ('A' as int <= c <= 'Z' as int && d == c + 32) || ('A' as int <= d <= 'Z' as int && c == d + 32)
  {
  }

  // ---------------------------------------------------------------------------------------------
  // UTF-8 and white space

  predicate Tail(c: byte) { 0x80 <= c <= 0xBF }

  /** Length of the well-formed UTF-8 sequence `s` starts with (section 4 of RFC 3629), 0 if none. */
  function Utf8Lead(s: Bytes): (n: nat)
    ensures n <= |s|
  {
    if s == [] then 0
    else if s[0] < 0x80 then 1
    else if 0xC2 <= s[0] <= 0xDF && |s| >= 2 && Tail(s[1]) then 2
    else if 0xE0 <= s[0] <= 0xEF && |s| >= 3 && Tail(s[1]) && Tail(s[2])
            && (s[0] == 0xE0 ==> 0xA0 <= s[1]) && (s[0] == 0xED ==> s[1] <= 0x9F) then 3
    else if 0xF0 <= s[0] <= 0xF4 && |s| >= 4 && Tail(s[1]) && Tail(s[2]) && Tail(s[3])
            && (s[0] == 0xF0 ==> 0x90 <= s[1]) && (s[0] == 0xF4 ==> s[1] <= 0x8F) then 4
    else 0
  }

  /** `str::from_utf8(s).is_ok()`. */
  predicate Utf8(s: Bytes) {
    s == [] || (Utf8Lead(s) > 0 && Utf8(s[Utf8Lead(s)..]))
  }

  /** What can be put before a text one ASCII character at a time can be put before it at once. */
  lemma {:induction false} PrependAll(a: Bytes, b: Bytes, p: Bytes -> bool)
    requires (forall c | c in a :: c < 0x80) && p(b)
    requires forall c: byte, rest | c < 0x80 && p(rest) :: p([c] + rest)
    ensures p(a + b)
  {
    if a == [] {
      assert a + b == b;
    } else {
      assert a[0] in a && forall c | c in a[1..] :: c in a;
      PrependAll(a[1..], b, p);
      assert a + b == [a[0]] + (a[1..] + b);
    }
  }

  lemma AsciiFirst(c: byte, rest: Bytes)
    requires c < 0x80 && Utf8(rest)
    ensures Utf8([c] + rest)
  {
    assert ([c] + rest)[1..] == rest;
  }

  lemma AsciiThenUtf8(a: Bytes, b: Bytes)
    requires forall c | c in a :: c < 0x80
    requires Utf8(b)
    ensures Utf8(a + b)
  {
    var p := (s: Bytes) => Utf8(s);
    forall c: byte, rest | c < 0x80 && p(rest) ensures p([c] + rest) {
      AsciiFirst(c, rest);
    }
    PrependAll(a, b, p);
  }

  predicate AsciiSpace(c: byte) { 9 <= c <= 13 || c == 32 }

  predicate Space2(c: byte, d: byte) { c == 0xC2 && (d == 0x85 || d == 0xA0) }

  predicate Space3(c: byte, d: byte, e: byte) {
    || (c == 0xE1 && d == 0x9A && e == 0x80)
    || (c == 0xE2 && d == 0x80 && (0x80 <= e <= 0x8A || e == 0xA8 || e == 0xA9 || e == 0xAF))
    || (c == 0xE2 && d == 0x81 && e == 0x9F)
    || (c == 0xE3 && d == 0x80 && e == 0x80)
  }

  /** Byte length of the Unicode White_Space character `s` starts with, 0 if it starts with none. */
  function SpaceAtStart(s: Bytes): (n: nat)
    ensures n <= |s|
  {
    if |s| >= 1 && AsciiSpace(s[0]) then 1
    else if |s| >= 2 && Space2(s[0], s[1]) then 2
    else if |s| >= 3 && Space3(s[0], s[1], s[2]) then 3
    else 0
  }

  function SpaceAtEnd(s: Bytes): (n: nat)
    ensures n <= |s|
  {
    var k := |s|;
    if k >= 1 && AsciiSpace(s[k - 1]) then 1
    else if k >= 2 && Space2(s[k - 2], s[k - 1]) then 2
    else if k >= 3 && Space3(s[k - 3], s[k - 2], s[k - 1]) then 3
    else 0
  }

  function TrimStart(s: Bytes): (r: Bytes)
    ensures |r| <= |s| && SpaceAtStart(r) == 0
  {
    if SpaceAtStart(s) == 0 then s else TrimStart(s[SpaceAtStart(s)..])
  }

  function TrimEnd(s: Bytes): Bytes {
    if SpaceAtEnd(s) == 0 then s else TrimEnd(s[..|s| - SpaceAtEnd(s)])
  }

  /** `str::trim`. */
  function Trim(s: Bytes): Bytes { TrimEnd(TrimStart(s)) }

  /** A non-blank ASCII word followed by blanks trims to the word. */
  lemma {:induction false} TrimPadded(word: Bytes, pad: Bytes)
    requires forall c | c in word :: c < 0x80 && !AsciiSpace(c)
    requires word != []
    requires forall c | c in pad :: AsciiSpace(c)
    ensures Trim(word + pad) == word
  {
    assert word[0] in word;
    assert TrimStart(word + pad) == word + pad;
    TrimEndPadded(word, pad);
  }

  lemma {:induction false} TrimEndPadded(word: Bytes, pad: Bytes)
    requires forall c | c in word :: c < 0x80 && !AsciiSpace(c)
    requires word != []
    requires forall c | c in pad :: AsciiSpace(c)
    ensures TrimEnd(word + pad) == word
  {
    var n := |pad|;
    if n == 0 {
      assert word + pad == word;
      assert word[|word| - 1] in word;
    } else {
      assert pad[n - 1] in pad;
      TrimEndPadded(word, pad[..n - 1]);
      assert (word + pad)[..|word + pad| - 1] == word + pad[..n - 1];
    }
  }

  /** Bytes before the next white space of `s`. */
  function WordLength(s: Bytes): (n: nat)
    ensures n <= |s|
  {
    if s == [] || SpaceAtStart(s) > 0 then 0 else 1 + WordLength(s[1..])
  }

  /** `text.split_whitespace()`. */
  function Fields(s: Bytes): (r: seq<Bytes>)
    decreases |s|
  {
    var t := TrimStart(s);
    if t == [] then []
    else
      var n := WordLength(t);
      [t[..n]] + Fields(t[n..])
  }

  // ---------------------------------------------------------------------------------------------
  // Numbers

  /** Value of a digit in a radix of at most 16. */
  function Digit(c: byte, radix: nat): Option<nat> {
    var v := if 48 <= c <= 57 then c - 48
             else if 97 <= c <= 102 then c - 87
             else if 65 <= c <= 70 then c - 55
             else 99;
    if v < radix then Some(v) else None
  }

  /** Value of a digit string, most significant digit first. */
  function Numeral(s: Bytes, radix: nat): Option<nat> {
    if s == [] then Some(0)
    else
      var n := |s| - 1;
      match (Numeral(s[..n], radix), Digit(s[n], radix))
      case (Some(high), Some(low)) => Some(high * radix + low)
      case _ => None
  }

  /** Rust's unsigned `from_str_radix`: at least one digit, an optional leading `+`, no overflow. */
  function ParseUint(s: Bytes, radix: nat, max: nat): (r: Option<nat>)
    ensures r.Some? ==> r.value <= max && s != []
  {
    var digits := if s != [] && s[0] == 43 then s[1..] else s;
    if digits == [] then None
    else
      match Numeral(digits, radix)
      case None => None
      case Some(v) => if v <= max then Some(v) else None
  }

  function DigitChar(d: nat): (c: byte)
    requires d < 16
    ensures d < 10 ==> c == 48 + d
  {
    if d < 10 then 48 + d else 87 + d
  }

  /** A number written in a radix, without leading zeros. */
  function Print(n: nat, radix: nat): (r: Bytes)
    requires 2 <= radix <= 16
    ensures r != []
    decreases n
  {
    if n < radix then [DigitChar(n)]
    else
      DivSmaller(n, radix);
      Print(n / radix, radix) + [DigitChar(n % radix)]
  }

  lemma DivSmaller(n: nat, d: nat)
    requires 2 <= d <= n
    ensures n / d < n
  {
    MulMonotone(n / d, 2, d);
  }

  lemma MulMonotone(a: nat, x: nat, y: nat)
    requires x <= y
    ensures a * x <= a * y
  {
  }

  lemma NumeralSnoc(s: Bytes, c: byte, radix: nat)
    requires Numeral(s, radix).Some? && Digit(c, radix).Some?
    ensures Numeral(s + [c], radix) == Some(Numeral(s, radix).value * radix + Digit(c, radix).value)
  {
    assert (s + [c])[..|s|] == s;
  }

  lemma DigitOfChar(d: nat, radix: nat)
    requires d < radix <= 16
    ensures Digit(DigitChar(d), radix) == Some(d)
  {
  }

  lemma PrintSplits(n: nat, radix: nat)
    requires 2 <= radix <= 16 && radix <= n
    ensures n / radix < n && n % radix < 16
    ensures Print(n, radix) == Print(n / radix, radix) + [DigitChar(n % radix)]
    ensures n / radix * radix + n % radix == n
  {
    DivSmaller(n, radix);
    DivMod(n, radix);
  }

  lemma DivMod(n: nat, d: nat)
    requires 0 < d
    ensures n / d * d + n % d == n && n % d < d
  {
  }

  /** Printing and reading a number are inverse. */
  lemma {:induction false} NumeralOfPrint(n: nat, radix: nat)
    requires 2 <= radix <= 16
    ensures Numeral(Print(n, radix), radix) == Some(n)
    decreases n
  {
    if n < radix {
      DigitOfChar(n, radix);
      NumeralSnoc([], DigitChar(n), radix);
      assert [] + [DigitChar(n)] == Print(n, radix);
    } else {
      PrintSplits(n, radix);
      var q, d := n / radix, n % radix;
      NumeralOfPrint(q, radix);
      DigitOfChar(d, radix);
      NumeralSnoc(Print(q, radix), DigitChar(d), radix);
    }
  }

  /** Only digits are printed. */
  lemma {:induction false} PrintsDigits(n: nat, radix: nat)
    requires 2 <= radix <= 16
    ensures forall c | c in Print(n, radix) :: Digit(c, radix).Some?
    decreases n
  {
    if n >= radix {
      DivSmaller(n, radix);
      PrintsDigits(n / radix, radix);
    }
  }

  lemma ParseOfPrint(n: nat, radix: nat, max: nat)
    requires 2 <= radix <= 16 && n <= max
    ensures ParseUint(Print(n, radix), radix, max) == Some(n)
  {
    NumeralOfPrint(n, radix);
    PrintsDigits(n, radix);
    assert Print(n, radix)[0] in Print(n, radix);
  }
}
