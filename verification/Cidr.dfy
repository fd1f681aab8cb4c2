/** Networks and the bit masks behind them (`src/config.rs`).

    An address is the number its bits spell. `&` and `<<` on `u32` and `u128` are written out on
    numbers of any width, so that IPv4 and IPv6 share one proof. */
module Cidr {
  import opened Wire
  import opened Numerals

  function Pow2(n: nat): (r: nat)
    ensures r > 0
  {
    if n == 0 then 1 else 2 * Pow2(n - 1)
  }

  /** Bitwise `&`. */
  function BitAnd(a: nat, b: nat): nat {
    if a == 0 || b == 0 then 0 else 2 * BitAnd(a / 2, b / 2) + (if a % 2 == 1 && b % 2 == 1 then 1 else 0)
  }

  /** `x << places` in an unsigned type of `width` bits: the bits shifted out are lost. */
  function ShiftLeft(x: nat, places: nat, width: nat): nat {
    (x * Pow2(places)) % Pow2(width)
  }

  /** Bit `i` of a number, bit 0 being the least significant. */
  function Bit(x: nat, i: nat): nat { (x / Pow2(i)) % 2 }

  /** `mask_v4` and `mask_v6`. */
  function Mask(address: nat, prefix: nat, width: nat): nat
    requires prefix <= width
  {
    var mask := if prefix == 0 then 0 else ShiftLeft(Pow2(width) - 1, width - prefix, width);
    BitAnd(address, mask)
  }

  type u32 = x: nat | x < 0x1_0000_0000
  type u128 = x: nat | x < 0x1_0000_0000_0000_0000_0000_0000_0000_0000

  datatype IpAddr = V4(bits4: u32) | V6(bits6: u128)

  function Width(a: IpAddr): nat { if a.V4? then 32 else 128 }

  function Number(a: IpAddr): nat { if a.V4? then a.bits4 else a.bits6 }

  predicate SameFamily(a: IpAddr, b: IpAddr) { a.V4? == b.V4? }

  datatype IpCidr = IpCidr(network: IpAddr, prefix: nat)

  /** A network whose prefix fits its address. Those the parser builds also have the bits after the prefix
      cleared, so that they are their own network (`MaskIdempotent`). */
  type Network = c: IpCidr | c.prefix <= Width(c.network) witness IpCidr(V4(0), 0)

  datatype IpCidrError = MissingPrefix | InvalidAddress | InvalidPrefix | PrefixTooLong(limit: nat)

  /** `IpCidr::contains`. */
  predicate Contains(c: Network, a: IpAddr) {
    SameFamily(c.network, a) && Mask(Number(a), c.prefix, Width(a)) == Number(c.network)
  }

  /** The network of an address: the address with the bits after the prefix cleared. */
  function NetworkOf(a: IpAddr, prefix: nat): (r: Network)
    requires prefix <= Width(a)
    ensures r.prefix == prefix && SameFamily(r.network, a)
    ensures Number(r.network) == Mask(Number(a), prefix, Width(a))
  {
    MaskClears(Number(a), prefix, Width(a));
    AddressFits(a);
    match a
    case V4(bits) => IpCidr(V4(Mask(bits, prefix, 32)), prefix)
    case V6(bits) => IpCidr(V6(Mask(bits, prefix, 128)), prefix)
  }

  /** `IpCidr::from_str`, with the textual address parser left open. */
  function ParseCidr(input: Bytes, parseAddress: Bytes -> Option<IpAddr>): (r: Result<Network, IpCidrError>)
    ensures r.Ok? ==> IndexOf(47, input).Some? && parseAddress(input[..IndexOf(47, input).value]).Some?
  {
    match IndexOf(47, input)
    case None => Err(MissingPrefix)
    case Some(slash) =>
      match parseAddress(input[..slash])
      case None => Err(InvalidAddress)
      case Some(a) =>
        match ParseUint(input[slash + 1..], 10, 255)
        case None => Err(InvalidPrefix)
        case Some(prefix) =>
          if prefix <= Width(a) then Ok(NetworkOf(a, prefix)) else Err(PrefixTooLong(Width(a)))
  }

  // ---------------------------------------------------------------------------------------------
  // Arithmetic of powers of two

  lemma {:induction false} Pow2Sum(a: nat, b: nat)
    ensures Pow2(a + b) == Pow2(a) * Pow2(b)
  {
    if a > 0 {
      Pow2Sum(a - 1, b);
      TwiceProduct(Pow2(a - 1), Pow2(b));
    }
  }

  lemma TwiceProduct(p: int, q: int)
    ensures 2 * (p * q) == (2 * p) * q
  {
  }

  lemma Pow2Monotone(a: nat, b: nat)
    requires a <= b
    ensures Pow2(a) <= Pow2(b)
  {
    Pow2Sum(a, b - a);
    MulMonotone(Pow2(a), 1, Pow2(b - a));
  }

  lemma ShiftedOnes(w: int, h: int)
    ensures (w - 1) * h == (h - 1) * w + (w - h)
  {
  }

  lemma Pow2Double(n: nat, v: nat)
    requires Pow2(n) == v
    ensures Pow2(n + n) == v * v
  {
    Pow2Sum(n, n);
  }

  lemma Pow2Of32(n: nat)
    requires n == 32
    ensures Pow2(n) == 0x1_0000_0000
  {
    Pow2Double(n / 16, 4);
    Pow2Double(n / 8, 16);
    Pow2Double(n / 4, 0x100);
    Pow2Double(n / 2, 0x1_0000);
  }

  lemma Pow2Of128(n: nat)
    requires n == 128
    ensures Pow2(n) == 0x1_0000_0000_0000_0000_0000_0000_0000_0000
  {
    Pow2Of32(n / 4);
    Pow2Double(n / 4, 0x1_0000_0000);
    Pow2Double(n / 2, 0x1_0000_0000_0000_0000);
  }

  lemma AddressFits(a: IpAddr)
    ensures Number(a) < Pow2(Width(a))
  {
    match a
    case V4(_) => Pow2Of32(Width(a));
    case V6(_) => Pow2Of128(Width(a));
  }

  /** Division and remainder are determined by their defining equation. */
  lemma DivModUnique(x: int, d: int, q: int, r: int)
    requires 0 < d && x == q * d + r && 0 <= r < d
    ensures x / d == q && x % d == r
  {
    var q', r' := x / d, x % d;
    assert (q - q') * d == r' - r;
    if q - q' >= 1 {
      MulMonotone(d, 1, q - q');
      assert false;
    } else if q - q' <= -1 {
      MulMonotone(d, 1, q' - q);
      assert false;
    }
  }

  /** Halving first: quotient and remainder by `2 * d`. */
  lemma Halve(x: nat, d: nat)
    requires 0 < d
    ensures x / (2 * d) == (x / 2) / d
    ensures x % (2 * d) == 2 * ((x / 2) % d) + x % 2
  {
    var h := x / 2;
    assert h == h / d * d + h % d;
    assert x == 2 * h + x % 2;
    assert 2 * (h / d * d) == (h / d) * (2 * d);
    DivModUnique(x, 2 * d, h / d, 2 * (h % d) + x % 2);
  }

  // ---------------------------------------------------------------------------------------------
  // What masking computes

  /** The mask built by shifting all ones is the number with exactly the high bits set. */
  lemma MaskBits(prefix: nat, width: nat)
    requires 0 < prefix <= width
    ensures ShiftLeft(Pow2(width) - 1, width - prefix, width) == Pow2(width) - Pow2(width - prefix)
  {
    var w, h := Pow2(width), Pow2(width - prefix);
    Pow2Monotone(width - prefix, width);
    ShiftedOnes(w, h);
    DivModUnique((w - 1) * h, w, h - 1, w - h);
  }

  lemma {:induction false} AndAllOnes(x: nat, width: nat)
    requires x < Pow2(width)
    ensures BitAnd(x, Pow2(width) - 1) == x
  {
    if x != 0 {
      assert (Pow2(width) - 1) / 2 == Pow2(width - 1) - 1;
      AndAllOnes(x / 2, width - 1);
    }
  }

  lemma AndEven(x: nat, m: nat)
    ensures BitAnd(x, 2 * m) == 2 * BitAnd(x / 2, m)
  {
    assert (2 * m) / 2 == m && (2 * m) % 2 == 0;
  }

  /** `x` with its lowest `low` bits cleared, bit by bit. */
  ghost function ClearLow(x: nat, low: nat): nat {
    if low == 0 then x else 2 * ClearLow(x / 2, low - 1)
  }

  lemma {:induction false} AndHighBits(x: nat, low: nat, width: nat)
    requires low <= width && x < Pow2(width)
    ensures Pow2(low) <= Pow2(width)
    ensures BitAnd(x, Pow2(width) - Pow2(low)) == ClearLow(x, low)
    decreases low
  {
    Pow2Monotone(low, width);
    if low == 0 {
      AndAllOnes(x, width);
    } else {
      AndHighBits(x / 2, low - 1, width - 1);
      AndEven(x, Pow2(width - 1) - Pow2(low - 1));
    }
  }

  lemma {:induction false} ClearLowIsBlockStart(x: nat, low: nat)
    ensures ClearLow(x, low) == x - x % Pow2(low)
  {
    if low > 0 {
      ClearLowIsBlockStart(x / 2, low - 1);
      Halve(x, Pow2(low - 1));
    }
  }

  /** Masking clears exactly the bits after the prefix. */
  lemma MaskClears(x: nat, prefix: nat, width: nat)
    requires prefix <= width
    ensures x < Pow2(width) ==> Mask(x, prefix, width) == x - x % Pow2(width - prefix) <= x
  {
    if x < Pow2(width) {
      AndHighBits(x, width - prefix, width);
      ClearLowIsBlockStart(x, width - prefix);
      if prefix > 0 {
        MaskBits(prefix, width);
      }
    }
  }

  lemma BlockStart(x: nat, d: nat)
    requires 0 < d
    ensures (x - x % d) % d == 0
  {
    DivModUnique(x - x % d, d, x / d, 0);
  }

  lemma MaskTwice(x: nat, prefix: nat, width: nat)
    requires prefix <= width && x < Pow2(width)
    ensures Mask(Mask(x, prefix, width), prefix, width) == Mask(x, prefix, width)
  {
    var d := Pow2(width - prefix);
    MaskClears(x, prefix, width);
    MaskClears(Mask(x, prefix, width), prefix, width);
    BlockStart(x, d);
  }

  /** Two numbers have the same multiple of `d` below them iff one lies in the other's block. */
  lemma SameBlock(x: nat, y: nat, d: nat)
    requires 0 < d
    ensures x - x % d == y - y % d <==> x / d == y / d
    ensures x - x % d == y - y % d <==> x - x % d <= y < x - x % d + d
  {
    assert x - x % d == x / d * d && y - y % d == y / d * d;
    if x - x % d == y - y % d {
      DivModUnique(y, d, x / d, y % d);
    }
    if x - x % d <= y < x - x % d + d {
      DivModUnique(y, d, x / d, y - (x - x % d));
    }
  }

  /** Equal quotients by a power of two are exactly agreement on all the bits above it. */
  lemma {:induction false} QuotientIsHighBits(x: nat, y: nat, low: nat, width: nat)
    requires low <= width && x < Pow2(width) && y < Pow2(width)
    ensures x / Pow2(low) == y / Pow2(low) <==> forall i | low <= i < width :: Bit(x, i) == Bit(y, i)
    decreases width - low
  {
    if low == width {
      DivModUnique(x, Pow2(width), 0, x);
      DivModUnique(y, Pow2(width), 0, y);
    } else {
      QuotientIsHighBits(x, y, low + 1, width);
      DivTwice(x, low);
      DivTwice(y, low);
      assert x / Pow2(low) == 2 * (x / Pow2(low + 1)) + Bit(x, low);
      assert y / Pow2(low) == 2 * (y / Pow2(low + 1)) + Bit(y, low);
    }
  }

  lemma DivTwice(x: nat, low: nat)
    ensures x / Pow2(low + 1) == (x / Pow2(low)) / 2
  {
    var d := Pow2(low);
    var q := x / d;
    assert x == q * d + x % d;
    assert q == q / 2 * 2 + q % 2;
    assert (q / 2 * 2 + q % 2) * d == q / 2 * (2 * d) + (q % 2) * d;
    assert (q % 2) * d <= d;
    DivModUnique(x, 2 * d, q / 2, (q % 2) * d + x % d);
  }

  // ---------------------------------------------------------------------------------------------
  // What a network means

  /** Agreement on the first `prefix` bits of two addresses of one family. */
  ghost predicate AgreeOnPrefix(a: IpAddr, b: IpAddr, prefix: nat)
    requires prefix <= Width(a)
  {
    SameFamily(a, b) && forall i | Width(a) - prefix <= i < Width(a) :: Bit(Number(a), i) == Bit(Number(b), i)
  }

  /** The addresses of the same family in `[network, network + 2^(width - prefix))`. */
  predicate InRange(c: Network, a: IpAddr) {
    && SameFamily(c.network, a)
    && Number(c.network) <= Number(a) < Number(c.network) + Pow2(Width(c.network) - c.prefix)
  }

  /** A network contains exactly an interval of addresses, which are exactly those that share the
      first bits of the address it was written with. */
  lemma ContainsMeaning(written: IpAddr, prefix: nat, a: IpAddr)
    requires prefix <= Width(written)
    ensures var c := NetworkOf(written, prefix);
            && (Contains(c, a) <==> InRange(c, a))
            && (Contains(c, a) <==> AgreeOnPrefix(written, a, prefix))
  {
    MaskedNetwork(NetworkOf(written, prefix), written, a);
  }

  lemma MaskedNetwork(c: Network, written: IpAddr, a: IpAddr)
    requires SameFamily(c.network, written) && Number(c.network) == Mask(Number(written), c.prefix, Width(written))
    ensures Contains(c, a) <==> InRange(c, a)
    ensures Contains(c, a) <==> AgreeOnPrefix(written, a, c.prefix)
  {
    if SameFamily(written, a) {
      AddressFits(written);
      AddressFits(a);
      MaskMeaning(Number(written), Number(a), c.prefix, Width(written));
    }
  }

  /** The same on numbers. */
  lemma MaskMeaning(x: nat, y: nat, prefix: nat, width: nat)
    requires prefix <= width && x < Pow2(width) && y < Pow2(width)
    ensures Mask(y, prefix, width) == Mask(x, prefix, width) <==>
            Mask(x, prefix, width) <= y < Mask(x, prefix, width) + Pow2(width - prefix)
    ensures Mask(y, prefix, width) == Mask(x, prefix, width) <==>
            forall i | width - prefix <= i < width :: Bit(x, i) == Bit(y, i)
  {
    var d := Pow2(width - prefix);
    MaskClears(x, prefix, width);
    MaskClears(y, prefix, width);
    SameBlock(x, y, d);
    QuotientIsHighBits(x, y, width - prefix, width);
  }

  /** Masking twice changes nothing: the network of a network address is that network. */
  lemma MaskIdempotent(written: IpAddr, prefix: nat)
    requires prefix <= Width(written)
    ensures NetworkOf(NetworkOf(written, prefix).network, prefix) == NetworkOf(written, prefix)
  {
    AddressFits(written);
    MaskTwice(Number(written), prefix, Width(written));
  }

  /** Two networks of one family, the second at least as long a prefix: it lies inside the first, or
      they share no address. */
  lemma NestedOrDisjoint(x: IpAddr, p: nat, y: IpAddr, q: nat)
    requires p <= q <= Width(x) && SameFamily(x, y)
    ensures var wide, narrow := NetworkOf(x, p), NetworkOf(y, q);
            || (forall a :: Contains(narrow, a) ==> Contains(wide, a))
            || (forall a :: !(Contains(narrow, a) && Contains(wide, a)))
  {
    var wide, narrow := NetworkOf(x, p), NetworkOf(y, q);
    if AgreeOnPrefix(x, y, p) {
      forall a | Contains(narrow, a) ensures Contains(wide, a) {
        ContainsMeaning(y, q, a);
        ContainsMeaning(x, p, a);
      }
    } else {
      forall a ensures !(Contains(narrow, a) && Contains(wide, a)) {
        ContainsMeaning(y, q, a);
        ContainsMeaning(x, p, a);
      }
    }
  }

  /** A text accepted by the parser denotes the network of the address written in it. */
  lemma ParsedCidrMeaning(input: Bytes, parseAddress: Bytes -> Option<IpAddr>, a: IpAddr)
    requires ParseCidr(input, parseAddress).Ok?
    ensures var c := ParseCidr(input, parseAddress).value;
            var written := parseAddress(input[..IndexOf(47, input).value]).value;
            && c.prefix <= Width(written)
            && (Contains(c, a) <==> InRange(c, a))
            && (Contains(c, a) <==> AgreeOnPrefix(written, a, c.prefix))
  {
    var c := ParseCidr(input, parseAddress).value;
    var written := parseAddress(input[..IndexOf(47, input).value]).value;
    ContainsMeaning(written, c.prefix, a);
  }

  /** A text with a slash, by what stands before and behind the first one. If the address and the prefix `p` can be read
      and `p` fits, the network contains exactly the addresses that agree with the address on the first `p` bits;
      otherwise the text is refused for the part that is wrong. */
  lemma CidrOfText(address: Bytes, text: Bytes, parseAddress: Bytes -> Option<IpAddr>, p: nat, b: IpAddr)
    requires '/' as int !in address
    ensures var r := ParseCidr(address + ['/' as int] + text, parseAddress);
            match parseAddress(address)
            case None => r == Err(InvalidAddress)
            case Some(a) =>
              var width := if a.V4? then 32 else 128;
              && (Reads(text, p, 10) && p <= width ==>
                    r.Ok? && r.value.prefix == p && (Contains(r.value, b) <==> AgreeOnPrefix(a, b, p)))
              && (Reads(text, p, 10) && width < p <= 255 ==> r == Err(PrefixTooLong(width)))
              && ((forall q | 0 <= q <= 255 :: !Reads(text, q, 10)) ==> r == Err(InvalidPrefix))
  {
    var input := address + ['/' as int] + text;
    IndexOfAt(47, address, text);
    assert input[..|address|] == address && input[|address| + 1..] == text;
    ParseUintMeaning(text, 10, 255, p);
    match parseAddress(address)
    case None =>
    case Some(a) =>
      if ParseUint(text, 10, 255).Some? {
        ParseUintMeaning(text, 10, 255, ParseUint(text, 10, 255).value);
      }
      if p <= Width(a) {
        ContainsMeaning(a, p, b);
      }
  }

  /** A text without a slash is refused for that. */
  lemma CidrWithoutSlash(input: Bytes, parseAddress: Bytes -> Option<IpAddr>)
    ensures ParseCidr(input, parseAddress) == Err(MissingPrefix) <==> '/' as int !in input
  {
  }

  /** The usual spelling: an address, a slash and a printed prefix. */
  lemma PrintedCidr(address: Bytes, p: nat, parseAddress: Bytes -> Option<IpAddr>, b: IpAddr)
    requires '/' as int !in address && parseAddress(address).Some?
    ensures var a, r := parseAddress(address).value, ParseCidr(address + ['/' as int] + Print(p, 10), parseAddress);
            var width := if a.V4? then 32 else 128;
            && (p <= width ==> r.Ok? && (Contains(r.value, b) <==> AgreeOnPrefix(a, b, p)))
            && (width < p <= 255 ==> r == Err(PrefixTooLong(width)))
            && (255 < p ==> r == Err(InvalidPrefix))
  {
    PrintReads(p, 10);
    CidrOfText(address, Print(p, 10), parseAddress, p, b);
    forall q | 0 <= q <= 255 && p > 255 ensures !Reads(Print(p, 10), q, 10) {
      ParseUintMeaning(Print(p, 10), 10, Max(p, q), p);
      ParseUintMeaning(Print(p, 10), 10, Max(p, q), q);
    }
  }
}
