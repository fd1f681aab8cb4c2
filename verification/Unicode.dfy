/** What UTF-8 and white space mean: texts as sequences of Unicode scalar values. */
module Unicode {
  import opened Wire

  /** A Unicode scalar value. */
  type Char = c: nat | c < 0xD800 || 0xE000 <= c < 0x11_0000

  /** The characters with the property White_Space. */
  predicate White(c: Char) {
    || 0x9 <= c <= 0xD || c == 0x20 || c == 0x85 || c == 0xA0 || c == 0x1680
    || 0x2000 <= c <= 0x200A || c == 0x2028 || c == 0x2029 || c == 0x202F || c == 0x205F || c == 0x3000
  }

  /** The UTF-8 encoding of a character (section 3 of RFC 3629). */
  function EncodeChar(c: Char): (s: Bytes)
    ensures 1 <= |s| <= 4
  {
    if c < 0x80 then [c]
    else if c < 0x800 then [0xC0 + c / 0x40, 0x80 + c % 0x40]
    else if c < 0x1_0000 then [0xE0 + c / 0x1000, 0x80 + c / 0x40 % 0x40, 0x80 + c % 0x40]
    else [0xF0 + c / 0x4_0000, 0x80 + c / 0x1000 % 0x40, 0x80 + c / 0x40 % 0x40, 0x80 + c % 0x40]
  }

  /** A way to encode characters, which of them are white, and how bytes are trimmed and words measured. */
  datatype Coding = Coding(
    encode: Char -> Bytes, white: Char -> bool,
    trimStart: Bytes -> Bytes, trimEnd: Bytes -> Bytes, wordLength: Bytes -> nat)

  function Utf8Coding(): Coding {
    Coding((c: Char) => EncodeChar(c), (c: Char) => White(c),
           (s: Bytes) => TrimStart(s), (s: Bytes) => TrimEnd(s), (s: Bytes) => WordLength(s))
  }

  function EncodeBy(cs: seq<Char>, k: Coding): Bytes {
    if cs == [] then [] else k.encode(cs[0]) + EncodeBy(cs[1..], k)
  }

  /** The UTF-8 encoding of a text. */
  function EncodeText(cs: seq<Char>): Bytes { EncodeBy(cs, Utf8Coding()) }

  // ---------------------------------------------------------------------------------------------
  // UTF-8

  /** The bytes of an encoding, by its length. */
  lemma CharBytes(c: Char)
    ensures var e := EncodeChar(c);
            match |e|
            case 1 => e[0] < 0x80
            case 2 => 0xC2 <= e[0] <= 0xDF && Tail(e[1])
            case 3 =>
              && 0xE0 <= e[0] <= 0xEF && Tail(e[1]) && Tail(e[2])
              && (e[0] == 0xE0 ==> 0xA0 <= e[1]) && (e[0] == 0xED ==> e[1] <= 0x9F)
            case _ =>
              && 0xF0 <= e[0] <= 0xF4 && Tail(e[1]) && Tail(e[2]) && Tail(e[3])
              && (e[0] == 0xF0 ==> 0x90 <= e[1]) && (e[0] == 0xF4 ==> e[1] <= 0x8F)
  {
  }

  /** The sequence a stream starts with is the encoding of a character, whatever follows it. */
  lemma LeadOfChar(c: Char, rest: Bytes)
    ensures Utf8Lead(EncodeChar(c) + rest) == |EncodeChar(c)|
  {
    CharBytes(c);
    LeadOfBytes(EncodeChar(c), rest);
  }

  /** More bytes do not change what a stream starts with. */
  lemma LeadOfBytes(e: Bytes, rest: Bytes)
    requires Utf8Lead(e) == |e| > 0
    ensures Utf8Lead(e + rest) == |e|
  {
    assert (e + rest)[..|e|] == e;
    assert forall i | 0 <= i < |e| :: (e + rest)[i] == e[i];
  }

  /** Two, three and four bytes put together. */
  lemma Compose2(a: int, b: int) returns (c: Char)
    requires 0xC2 <= a <= 0xDF && 0x80 <= b <= 0xBF
    ensures EncodeChar(c) == [a, b]
  {
    c := (a - 0xC0) * 0x40 + (b - 0x80);
    assert c / 0x40 == a - 0xC0 && c % 0x40 == b - 0x80;
  }

  lemma Compose3(a: int, b: int, d: int) returns (c: Char)
    requires 0xE0 <= a <= 0xEF && 0x80 <= b <= 0xBF && 0x80 <= d <= 0xBF
    requires (a == 0xE0 ==> 0xA0 <= b) && (a == 0xED ==> b <= 0x9F)
    ensures EncodeChar(c) == [a, b, d]
  {
    var high := (a - 0xE0) * 0x40 + (b - 0x80);
    c := high * 0x40 + (d - 0x80);
    assert c / 0x40 == high && c % 0x40 == d - 0x80;
    assert high / 0x40 == a - 0xE0 && high % 0x40 == b - 0x80;
    assert c / 0x1000 == a - 0xE0;
  }

  lemma Compose4(a: int, b: int, d: int, e: int) returns (c: Char)
    requires 0xF0 <= a <= 0xF4 && 0x80 <= b <= 0xBF && 0x80 <= d <= 0xBF && 0x80 <= e <= 0xBF
    requires (a == 0xF0 ==> 0x90 <= b) && (a == 0xF4 ==> b <= 0x8F)
    ensures EncodeChar(c) == [a, b, d, e]
  {
    var top := (a - 0xF0) * 0x40 + (b - 0x80);
    var high := top * 0x40 + (d - 0x80);
    c := high * 0x40 + (e - 0x80);
    assert c / 0x40 == high && c % 0x40 == e - 0x80;
    assert high / 0x40 == top && high % 0x40 == d - 0x80;
    assert top / 0x40 == a - 0xF0 && top % 0x40 == b - 0x80;
    assert c / 0x1000 == top && c / 0x4_0000 == a - 0xF0;
  }

  /** And there is such a character whenever a sequence is found. */
  lemma CharOfLead(s: Bytes) returns (c: Char)
    requires Utf8Lead(s) > 0
    ensures EncodeChar(c) == s[..Utf8Lead(s)]
  {
    var n := Utf8Lead(s);
    if n == 1 {
      c := s[0];
    } else if n == 2 {
      c := Compose2(s[0], s[1]);
    } else if n == 3 {
      c := Compose3(s[0], s[1], s[2]);
    } else {
      c := Compose4(s[0], s[1], s[2], s[3]);
    }
  }

  lemma {:induction false} TextIsUtf8(cs: seq<Char>, k: Coding)
    requires forall c: Char, rest :: Utf8Lead(k.encode(c) + rest) == |k.encode(c)| > 0
    ensures Utf8(EncodeBy(cs, k))
  {
    if cs != [] {
      var first, rest := k.encode(cs[0]), EncodeBy(cs[1..], k);
      TextIsUtf8(cs[1..], k);
      assert (first + rest)[|first|..] == rest;
    }
  }

  lemma {:induction false} Utf8IsText(s: Bytes) returns (cs: seq<Char>)
    requires Utf8(s)
    ensures EncodeText(cs) == s
    decreases |s|
  {
    cs := [];
    if s != [] {
      var n := Utf8Lead(s);
      var c := CharOfLead(s);
      var rest := Utf8IsText(s[n..]);
      cs := [c] + rest;
      EncodeCons(c, rest);
      assert s == s[..n] + s[n..];
    }
  }

  lemma EncodeCons(c: Char, rest: seq<Char>)
    ensures EncodeText([c] + rest) == EncodeChar(c) + EncodeText(rest)
  {
    assert ([c] + rest)[1..] == rest;
  }

  /** `from_utf8` accepts exactly the encodings of sequences of characters. */
  lemma Utf8Meaning(s: Bytes)
    ensures Utf8(s) <==> exists cs :: EncodeText(cs) == s
  {
    if Utf8(s) {
      var cs := Utf8IsText(s);
    }
    forall cs | EncodeText(cs) == s ensures Utf8(s) {
      forall c: Char, rest ensures Utf8Lead(Utf8Coding().encode(c) + rest) == |Utf8Coding().encode(c)| > 0 {
        LeadOfChar(c, rest);
      }
      TextIsUtf8(cs, Utf8Coding());
    }
  }

  // ---------------------------------------------------------------------------------------------
  // White space

  /** White space is recognised at both ends exactly where a white character stands. */
  lemma SpaceFirst(c: Char, rest: Bytes)
    ensures SpaceAtStart(EncodeChar(c) + rest) == if White(c) then |EncodeChar(c)| else 0
  {
    var s := EncodeChar(c) + rest;
    assert forall i | 0 <= i < |EncodeChar(c)| :: s[i] == EncodeChar(c)[i];
  }

  lemma SpaceLast(front: Bytes, c: Char)
    ensures SpaceAtEnd(front + EncodeChar(c)) == if White(c) then |EncodeChar(c)| else 0
  {
    var s, e := front + EncodeChar(c), EncodeChar(c);
    assert forall i | 0 <= i < |e| :: s[|front| + i] == e[i];
  }

  /** What trimming does to the first and to the last character of a text. */
  lemma TrimFirst(c: Char, rest: Bytes)
    ensures TrimStart(EncodeChar(c) + rest) == if White(c) then TrimStart(rest) else EncodeChar(c) + rest
  {
    SpaceFirst(c, rest);
    assert (EncodeChar(c) + rest)[|EncodeChar(c)|..] == rest;
  }

  lemma TrimLast(front: Bytes, c: Char)
    ensures TrimEnd(front + EncodeChar(c)) == if White(c) then TrimEnd(front) else front + EncodeChar(c)
  {
    SpaceLast(front, c);
    var s := front + EncodeChar(c);
    assert s[..|s| - |EncodeChar(c)|] == front;
  }

  /** A word goes on through every byte of a character that is not white. */
  lemma CharInWord(c: Char, rest: Bytes)
    requires !White(c)
    ensures WordLength(EncodeChar(c) + rest) == |EncodeChar(c)| + WordLength(rest)
  {
    SpaceFirst(c, rest);
    CharBytes(c);
    TailsInWord(EncodeChar(c), rest, 1);
    assert (EncodeChar(c) + rest)[1..] == EncodeChar(c)[1..] + rest;
  }

  lemma {:induction false} TailsInWord(e: Bytes, rest: Bytes, k: nat)
    requires k <= |e| && forall i | k <= i < |e| :: Tail(e[i])
    ensures WordLength(e[k..] + rest) == |e| - k + WordLength(rest)
    decreases |e| - k
  {
    if k == |e| {
      assert e[k..] + rest == rest;
    } else {
      TailsInWord(e, rest, k + 1);
      assert (e[k..] + rest)[1..] == e[k + 1..] + rest;
      assert (e[k..] + rest)[0] == e[k];
    }
  }

  /** What trimming and splitting make of one character next to some bytes. */
  ghost predicate OneChar(k: Coding, c: Char, s: Bytes) {
    && k.encode(c) != []
    && k.trimStart(k.encode(c) + s) == (if k.white(c) then k.trimStart(s) else k.encode(c) + s)
    && k.trimEnd(s + k.encode(c)) == (if k.white(c) then k.trimEnd(s) else s + k.encode(c))
    && k.wordLength(k.encode(c) + s) == (if k.white(c) then 0 else |k.encode(c)| + k.wordLength(s))
  }

  /** A coding whose white characters are the white space that trimming and splitting look for. */
  ghost predicate Sound(k: Coding) {
    && (forall c: Char, s :: OneChar(k, c, s))
    && k.trimEnd([]) == [] == k.trimStart([]) && k.wordLength([]) == 0
  }

  lemma Utf8IsSound()
    ensures Sound(Utf8Coding())
  {
    forall c: Char, s ensures OneChar(Utf8Coding(), c, s) {
      TrimFirst(c, s);
      TrimLast(s, c);
      WordFirst(c, s);
    }
  }

  lemma WordFirst(c: Char, s: Bytes)
    ensures WordLength(EncodeChar(c) + s) == if White(c) then 0 else |EncodeChar(c)| + WordLength(s)
  {
    SpaceFirst(c, s);
    if !White(c) {
      CharInWord(c, s);
    }
  }

  // ---------------------------------------------------------------------------------------------
  // Trimming and splitting

  predicate AllWhite(cs: seq<Char>, k: Coding) { forall i | 0 <= i < |cs| :: k.white(cs[i]) }

  predicate NoneWhite(cs: seq<Char>, k: Coding) { forall i | 0 <= i < |cs| :: !k.white(cs[i]) }

  lemma {:induction false} EncodeAppend(a: seq<Char>, b: seq<Char>, k: Coding)
    ensures EncodeBy(a + b, k) == EncodeBy(a, k) + EncodeBy(b, k)
  {
    if a == [] {
      assert a + b == b;
    } else {
      EncodeAppend(a[1..], b, k);
      assert (a + b)[1..] == a[1..] + b;
    }
  }

  lemma EncodeThree(a: seq<Char>, b: seq<Char>, c: seq<Char>, k: Coding)
    ensures EncodeBy(a + b + c, k) == EncodeBy(a, k) + (EncodeBy(b, k) + EncodeBy(c, k))
  {
    EncodeAppend(a + b, c, k);
    EncodeAppend(a, b, k);
  }

  lemma {:induction false} TrimStartOf(a: seq<Char>, rest: Bytes, k: Coding)
    requires Sound(k) && AllWhite(a, k)
    ensures k.trimStart(EncodeBy(a, k) + rest) == k.trimStart(rest)
  {
    if a == [] {
      assert EncodeBy(a, k) + rest == rest;
    } else {
      TrimStartOf(a[1..], rest, k);
      assert OneChar(k, a[0], EncodeBy(a[1..], k) + rest);
      assert EncodeBy(a, k) + rest == k.encode(a[0]) + (EncodeBy(a[1..], k) + rest);
    }
  }

  lemma StartsInWord(b: seq<Char>, rest: Bytes, k: Coding)
    requires Sound(k) && b != [] && !k.white(b[0])
    ensures k.trimStart(EncodeBy(b, k) + rest) == EncodeBy(b, k) + rest
  {
    assert OneChar(k, b[0], EncodeBy(b[1..], k) + rest);
    assert EncodeBy(b, k) + rest == k.encode(b[0]) + (EncodeBy(b[1..], k) + rest);
  }

  lemma EncodeSnoc(front: seq<Char>, c: Char, k: Coding)
    ensures EncodeBy(front + [c], k) == EncodeBy(front, k) + k.encode(c)
  {
    EncodeAppend(front, [c], k);
    assert [c][1..] == [];
  }

  lemma {:induction false} TrimEndOf(front: Bytes, c: seq<Char>, k: Coding)
    requires Sound(k) && AllWhite(c, k)
    ensures k.trimEnd(front + EncodeBy(c, k)) == k.trimEnd(front)
    decreases |c|
  {
    if c == [] {
      assert front + EncodeBy(c, k) == front;
    } else {
      var n := |c| - 1;
      TrimEndOf(front, c[..n], k);
      EncodeSnoc(c[..n], c[n], k);
      assert c == c[..n] + [c[n]];
      assert OneChar(k, c[n], front + EncodeBy(c[..n], k));
      assert front + EncodeBy(c, k) == front + EncodeBy(c[..n], k) + k.encode(c[n]);
    }
  }

  lemma EndsInWord(b: seq<Char>, k: Coding)
    requires Sound(k) && (b != [] ==> !k.white(b[|b| - 1]))
    ensures k.trimEnd(EncodeBy(b, k)) == EncodeBy(b, k)
  {
    if b != [] {
      var front, last := b[..|b| - 1], b[|b| - 1];
      EncodeSnoc(front, last, k);
      assert b == front + [last];
      assert OneChar(k, last, EncodeBy(front, k));
    }
  }

  lemma TrimBy(a: seq<Char>, b: seq<Char>, c: seq<Char>, k: Coding)
    requires Sound(k) && AllWhite(a, k) && AllWhite(c, k) && (b == [] ==> c == [])
    requires b != [] ==> !k.white(b[0]) && !k.white(b[|b| - 1])
    ensures k.trimEnd(k.trimStart(EncodeBy(a + b + c, k))) == EncodeBy(b, k)
  {
    EncodeThree(a, b, c, k);
    TrimStartOf(a, EncodeBy(b, k) + EncodeBy(c, k), k);
    if b != [] {
      StartsInWord(b, EncodeBy(c, k), k);
    }
    TrimEndOf(EncodeBy(b, k), c, k);
    EndsInWord(b, k);
  }

  /** `trim` removes exactly the white characters at both ends. */
  lemma TrimMeaning(a: seq<Char>, b: seq<Char>, c: seq<Char>)
    requires (forall x | x in a + c :: White(x)) && (b == [] ==> c == [])
    requires b != [] ==> !White(b[0]) && !White(b[|b| - 1])
    ensures Trim(EncodeText(a + b + c)) == EncodeText(b)
  {
    Utf8IsSound();
    assert (forall x | x in a :: x in a + c) && (forall x | x in c :: x in a + c);
    TrimBy(a, b, c, Utf8Coding());
  }

  lemma {:induction false} WordLengthOf(w: seq<Char>, rest: Bytes, k: Coding)
    requires Sound(k) && NoneWhite(w, k) && k.wordLength(rest) == 0
    ensures k.wordLength(EncodeBy(w, k) + rest) == |EncodeBy(w, k)|
  {
    if w == [] {
      assert EncodeBy(w, k) + rest == rest;
    } else {
      WordLengthOf(w[1..], rest, k);
      assert OneChar(k, w[0], EncodeBy(w[1..], k) + rest);
      assert EncodeBy(w, k) + rest == k.encode(w[0]) + (EncodeBy(w[1..], k) + rest);
    }
  }

  lemma WordEnds(rest: seq<Char>, k: Coding)
    requires Sound(k) && (rest != [] ==> k.white(rest[0]))
    ensures k.wordLength(EncodeBy(rest, k)) == 0
  {
    if rest != [] {
      assert OneChar(k, rest[0], EncodeBy(rest[1..], k));
    }
  }

  lemma FieldsBy(gap: seq<Char>, word: seq<Char>, rest: seq<Char>, k: Coding)
    requires Sound(k) && AllWhite(gap, k) && NoneWhite(word, k) && word != [] && (rest != [] ==> k.white(rest[0]))
    ensures var w, r := EncodeBy(word, k), EncodeBy(rest, k);
            && w != [] && k.trimStart(EncodeBy(gap + word + rest, k)) == w + r && k.wordLength(w + r) == |w|
  {
    EncodeThree(gap, word, rest, k);
    var w, r := EncodeBy(word, k), EncodeBy(rest, k);
    TrimStartOf(gap, w + r, k);
    StartsInWord(word, r, k);
    assert OneChar(k, word[0], []);
    WordEnds(rest, k);
    WordLengthOf(word, r, k);
  }

  lemma FieldsStep(s: Bytes, w: Bytes, r: Bytes)
    requires TrimStart(s) == w + r && w != [] && WordLength(w + r) == |w|
    ensures Fields(s) == [w] + Fields(r)
  {
    assert (w + r)[..|w|] == w && (w + r)[|w|..] == r;
  }

  /** `split_whitespace` gives exactly the words between white characters, in order. */
  lemma FieldsMeaning(gap: seq<Char>, word: seq<Char>, rest: seq<Char>)
    requires (forall x | x in gap :: White(x)) && (forall x | x in word :: !White(x))
    requires rest != [] ==> White(rest[0])
    ensures word != [] ==> Fields(EncodeText(gap + word + rest)) == [EncodeText(word)] + Fields(EncodeText(rest))
    ensures Fields(EncodeText(gap)) == []
  {
    Utf8IsSound();
    if word != [] {
      FieldsBy(gap, word, rest, Utf8Coding());
      FieldsStep(EncodeText(gap + word + rest), EncodeText(word), EncodeText(rest));
    }
    TrimStartOf(gap, [], Utf8Coding());
    assert EncodeText(gap) + [] == EncodeText(gap);
  }

  /** Cutting a text at an ASCII character gives texts. */
  lemma {:induction false} PiecesAreText(sep: byte, s: Bytes)
    requires sep < 0x80 && Utf8(s)
    ensures forall i | 0 <= i < |Split(sep, s)| :: Utf8(Split(sep, s)[i])
    decreases |s|
  {
    match IndexOf(sep, s)
    case None =>
    case Some(k) =>
      CutIsText(s, k);
      PiecesAreText(sep, s[k + 1..]);
  }

  lemma {:induction false} CutIsText(s: Bytes, k: nat)
    requires Utf8(s) && k < |s| && s[k] < 0x80
    ensures Utf8(s[..k]) && Utf8(s[k + 1..])
    decreases |s|
  {
    var n := Utf8Lead(s);
    if k == 0 {
      assert n == 1;
    } else {
      assert k >= n;
      CutIsText(s[n..], k - n);
      assert s[n..][..k - n] == s[n..k] && s[n..][k - n + 1..] == s[k + 1..];
      LeadOfPrefix(s, k);
      assert s[..k][n..] == s[n..k];
    }
  }

  lemma LeadOfPrefix(s: Bytes, k: nat)
    requires 0 < Utf8Lead(s) <= k <= |s|
    ensures Utf8Lead(s[..k]) == Utf8Lead(s)
  {
  }
}
