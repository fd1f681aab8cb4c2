/** Which destinations are reached directly (`src/routing.rs`, `src/server.rs`). */
module Routing {
  import opened Wire
  import opened Cidr

  datatype SocketAddr = SocketAddr(ip: IpAddr, port: nat)

  /** First octet, second octet and first 16-bit segment of an address. */
  function First4(bits: u32): nat { bits / 0x100_0000 }
  function Second4(bits: u32): nat { (bits / 0x1_0000) % 0x100 }
  function First6(bits: u128): nat { bits / 0x100_0000_0000_0000_0000_0000_0000_0000 }
  function Segment6(bits: u128): nat { bits / 0x1_0000_0000_0000_0000_0000_0000_0000 }

  /** `is_default_direct_v4`, with the standard library's predicates written out. */
  predicate DefaultDirect4(bits: u32) {
    var first, second := First4(bits), Second4(bits);
    || first == 127
    || (first == 10 || (first == 172 && 16 <= second <= 31) || (first == 192 && second == 168))
    || (first == 169 && second == 254)
    || (first == 100 && 64 <= second <= 127)
  }

  /** `is_default_direct_v6`. */
  predicate DefaultDirect6(bits: u128) {
    || bits == 1
    || BitAnd(Segment6(bits), 0xffc0) == 0xfe80
    || BitAnd(First6(bits), 0xfe) == 0xfc
  }

  predicate DefaultDirect(a: IpAddr) {
    match a
    case V4(bits) => DefaultDirect4(bits)
    case V6(bits) => DefaultDirect6(bits)
  }

  /** `is_direct_address`. */
  predicate DirectAddress(a: IpAddr, additional: seq<Network>) {
    DefaultDirect(a) || exists i | 0 <= i < |additional| :: Contains(additional[i], a)
  }

  // ---------------------------------------------------------------------------------------------
  // The same classification as a list of networks

  /** A network by its first address, with the number of addresses it spans. */
  datatype Block = Block(first: IpAddr, prefix: nat, size: nat) {
    ghost predicate Valid() {
      && prefix <= Width(first)
      && Pow2(Width(first) - prefix) == size
      && Number(first) % size == 0
    }

    function Net(): Network
      requires Valid()
    {
      NetworkOf(first, prefix)
    }

    predicate Holds(a: IpAddr) {
      SameFamily(first, a) && Number(first) <= Number(a) < Number(first) + size
    }
  }

  /** 127/8, 10/8, 172.16/12, 192.168/16, 169.254/16 and 100.64/10. */
  function DefaultBlocks4(): seq<Block> {
    [ Block(V4(0x7F00_0000), 8, 0x100_0000),
      Block(V4(0x0A00_0000), 8, 0x100_0000),
      Block(V4(0xAC10_0000), 12, 0x10_0000),
      Block(V4(0xC0A8_0000), 16, 0x1_0000),
      Block(V4(0xA9FE_0000), 16, 0x1_0000),
      Block(V4(0x6440_0000), 10, 0x40_0000) ]
  }

  /** ::1/128, fe80::/10 and fc00::/7. */
  function DefaultBlocks6(): seq<Block> {
    [ Block(V6(1), 128, 1),
      Block(V6(0xfe80_0000_0000_0000_0000_0000_0000_0000), 10, 0x40_0000_0000_0000_0000_0000_0000_0000),
      Block(V6(0xfc00_0000_0000_0000_0000_0000_0000_0000), 7, 0x200_0000_0000_0000_0000_0000_0000_0000) ]
  }

  ghost predicate AllValid(blocks: seq<Block>) {
    forall i | 0 <= i < |blocks| :: blocks[i].Valid()
  }

  ghost function Networks(blocks: seq<Block>): (r: seq<Network>)
    requires AllValid(blocks)
    ensures |r| == |blocks| && forall i | 0 <= i < |r| :: r[i] == blocks[i].Net()
  {
    if blocks == [] then [] else [blocks[0].Net()] + Networks(blocks[1..])
  }

  ghost predicate Listed(a: IpAddr, networks: seq<Network>) {
    exists i | 0 <= i < |networks| :: Contains(networks[i], a)
  }

  ghost predicate Held(a: IpAddr, blocks: seq<Block>) {
    exists i | 0 <= i < |blocks| :: blocks[i].Holds(a)
  }

  /** A network written with its own first address is the interval that starts there. */
  lemma BlockIsNetwork(b: Block, a: IpAddr)
    requires b.Valid()
    ensures Contains(b.Net(), a) <==> b.Holds(a)
  {
    ContainsMeaning(b.first, b.prefix, a);
    AlignedMask(Number(b.first), b.prefix, Width(b.first), b.size, b.first);
  }

  lemma AlignedMask(x: nat, prefix: nat, width: nat, size: nat, first: IpAddr)
    requires x == Number(first) && width == Width(first)
    requires prefix <= width && Pow2(width - prefix) == size && x % size == 0
    ensures Mask(x, prefix, width) == x
  {
    AddressFits(first);
    MaskClears(x, prefix, width);
  }

  lemma HeldIsListed(a: IpAddr, blocks: seq<Block>)
    requires AllValid(blocks)
    ensures Held(a, blocks) <==> Listed(a, Networks(blocks))
  {
    forall i | 0 <= i < |blocks| ensures Contains(Networks(blocks)[i], a) <==> blocks[i].Holds(a) {
      BlockIsNetwork(blocks[i], a);
    }
  }

  lemma Pow2Plus(n: nat, m: nat, v: nat)
    requires Pow2(n) == v
    ensures Pow2(n + m) == v * Pow2(m)
  {
    Pow2Sum(n, m);
  }

  lemma Blocks4Valid(n: nat)
    requires n == 32
    ensures AllValid(DefaultBlocks4())
  {
    Sizes4(n);
    forall i | 0 <= i < |DefaultBlocks4()| ensures DefaultBlocks4()[i].Valid() {
      var b := DefaultBlocks4()[i];
      assert Pow2(n - b.prefix) == b.size;
    }
  }

  lemma Blocks6Valid(n: nat)
    requires n == 128
    ensures AllValid(DefaultBlocks6())
  {
    Sizes6(n);
    forall i | 0 <= i < |DefaultBlocks6()| ensures DefaultBlocks6()[i].Valid() {
      var b := DefaultBlocks6()[i];
      assert Pow2(n - b.prefix) == b.size;
    }
  }

  lemma Sizes4(n: nat)
    requires n == 32
    ensures Pow2(n - 16) == 0x1_0000
    ensures Pow2(n - 12) == 0x10_0000
    ensures Pow2(n - 10) == 0x40_0000
    ensures Pow2(n - 8) == 0x100_0000
  {
    Pow2Double(n / 16, 4);
    Pow2Double(n / 8, 16);
    Pow2Double(n / 4, 0x100);
    Pow2Plus(n - 16, 4, 0x1_0000);
    Pow2Plus(n - 12, 2, 0x10_0000);
    Pow2Plus(n - 10, 2, 0x40_0000);
  }

  lemma Sizes6(n: nat)
    requires n == 128
    ensures Pow2(n - 10) == 0x40_0000_0000_0000_0000_0000_0000_0000
    ensures Pow2(n - 7) == 0x200_0000_0000_0000_0000_0000_0000_0000
  {
    Sizes4(n / 4);
    Pow2Of32(n / 4);
    Pow2Double(n / 4, 0x1_0000_0000);
    var m := n / 4 - 10;
    Pow2Plus(n / 4, m, 0x1_0000_0000);
    Pow2Plus(n / 2, n / 4 + m, 0x1_0000_0000_0000_0000);
    Pow2Plus(n - 10, 3, 0x40_0000_0000_0000_0000_0000_0000_0000);
  }

  lemma Default4IsHeld(bits: u32)
    ensures DefaultDirect4(bits) <==> Held(V4(bits), DefaultBlocks4())
  {
    var a, b := V4(bits), DefaultBlocks4();
    assert b[0].Holds(a) <==> First4(bits) == 127;
    assert b[1].Holds(a) <==> First4(bits) == 10;
    assert b[2].Holds(a) <==> First4(bits) == 172 && 16 <= Second4(bits) <= 31;
    assert b[3].Holds(a) <==> First4(bits) == 192 && Second4(bits) == 168;
    assert b[4].Holds(a) <==> First4(bits) == 169 && Second4(bits) == 254;
    assert b[5].Holds(a) <==> First4(bits) == 100 && 64 <= Second4(bits) <= 127;
  }

  /** `x & mask` for the two byte masks of the IPv6 tests. */
  lemma AndMask(x: nat, low: nat, width: nat, mask: nat)
    requires low <= width && x < Pow2(width) && mask + Pow2(low) == Pow2(width)
    ensures BitAnd(x, mask) == x - x % Pow2(low)
  {
    AndHighBits(x, low, width);
    ClearLowIsBlockStart(x, low);
  }

  lemma SegmentMask(segment: nat, low: nat, width: nat)
    requires segment < 0x1_0000 && low == 6 && width == 16
    ensures BitAnd(segment, 0xffc0) == segment - segment % 64
  {
    assert Pow2(low) == 64;
    Pow2Double(width / 4, 16);
    Pow2Double(width / 2, 256);
    AndMask(segment, low, width, 0xffc0);
  }

  lemma OctetMask(octet: nat, low: nat, width: nat)
    requires octet < 0x100 && low == 1 && width == 8
    ensures BitAnd(octet, 0xfe) == octet - octet % 2
  {
    assert Pow2(low) == 2;
    Pow2Double(width / 4, 4);
    Pow2Double(width / 2, 16);
    AndMask(octet, low, width, 0xfe);
  }

  /** The two masked tests as intervals. */
  lemma MaskedTests(bits: u128)
    ensures BitAnd(Segment6(bits), 0xffc0) == 0xfe80 <==> 0xfe80 <= Segment6(bits) < 0xfec0
    ensures BitAnd(First6(bits), 0xfe) == 0xfc <==> 0xfc <= First6(bits) < 0xfe
  {
    SegmentMask(Segment6(bits), 6, 16);
    OctetMask(First6(bits), 1, 8);
  }

  lemma Default6IsHeld(bits: u128)
    ensures DefaultDirect6(bits) <==> Held(V6(bits), DefaultBlocks6())
  {
    var a, b := V6(bits), DefaultBlocks6();
    MaskedTests(bits);
    assert b[0].Holds(a) <==> bits == 1;
    assert b[1].Holds(a) <==> 0xfe80 <= Segment6(bits) < 0xfec0;
    assert b[2].Holds(a) <==> 0xfc <= First6(bits) < 0xfe;
  }

  /** The octet tests are exactly membership in one of nine networks or in an additional one. */
  lemma DirectIffListed(a: IpAddr, additional: seq<Network>)
    ensures AllValid(DefaultBlocks4() + DefaultBlocks6())
    ensures DirectAddress(a, additional) <==>
            Listed(a, Networks(DefaultBlocks4() + DefaultBlocks6()) + additional)
  {
    Blocks4Valid(32);
    Blocks6Valid(128);
    if a.V4? { Default4IsHeld(a.bits4); } else { Default6IsHeld(a.bits6); }
    assert a.V4? ==> !Held(a, DefaultBlocks6());
    assert a.V6? ==> !Held(a, DefaultBlocks4());
    HeldOrAdditional(a, DefaultBlocks4(), DefaultBlocks6(), additional);
  }

  lemma HeldOrAdditional(a: IpAddr, b4: seq<Block>, b6: seq<Block>, additional: seq<Network>)
    requires AllValid(b4) && AllValid(b6)
    ensures AllValid(b4 + b6)
    ensures Listed(a, Networks(b4 + b6) + additional) <==> Held(a, b4) || Held(a, b6) || Listed(a, additional)
  {
    HeldAppend(a, b4, b6);
    HeldIsListed(a, b4 + b6);
    ListedAppend(a, Networks(b4 + b6), additional);
  }

  lemma HeldAppend(a: IpAddr, x: seq<Block>, y: seq<Block>)
    ensures Held(a, x + y) <==> Held(a, x) || Held(a, y)
  {
    if Held(a, x) {
      var i :| 0 <= i < |x| && x[i].Holds(a);
      assert (x + y)[i].Holds(a);
    }
    if Held(a, y) {
      var i :| 0 <= i < |y| && y[i].Holds(a);
      assert (x + y)[|x| + i].Holds(a);
    }
  }

  lemma ListedAppend(a: IpAddr, x: seq<Network>, y: seq<Network>)
    ensures Listed(a, x + y) <==> Listed(a, x) || Listed(a, y)
  {
    if Listed(a, x) {
      var i :| 0 <= i < |x| && Contains(x[i], a);
      assert Contains((x + y)[i], a);
    }
    if Listed(a, y) {
      var i :| 0 <= i < |y| && Contains(y[i], a);
      assert Contains((x + y)[|x| + i], a);
    }
  }

  // ---------------------------------------------------------------------------------------------
  // The addresses a destination may be dialled at

  ghost predicate NoDuplicates(s: seq<SocketAddr>) {
    forall i, j | 0 <= i < j < |s| :: s[i] != s[j]
  }

  /** `at` gives, in increasing order, the place where each kept address first appears. */
  ghost predicate FirstAppearances(kept: seq<SocketAddr>, resolved: seq<SocketAddr>, at: seq<nat>) {
    && |at| == |kept|
    && (forall k | 0 <= k < |at| :: at[k] < |resolved| && resolved[at[k]] == kept[k] && kept[k] !in resolved[..at[k]])
    && (forall j, k | 0 <= j < k < |at| :: at[j] < at[k])
  }

  /** The direct addresses among those resolved, each once, in the order of their first appearance. */
  ghost predicate DirectList(kept: seq<SocketAddr>, resolved: seq<SocketAddr>, additional: seq<Network>) {
    && (forall x :: x in kept <==> x in resolved && DirectAddress(x.ip, additional))
    && NoDuplicates(kept)
    && exists at :: FirstAppearances(kept, resolved, at)
  }

  /** `resolve_direct_addresses` once the lookup has answered: `None` if no address is direct. */
  method KeepDirect(resolved: seq<SocketAddr>, additional: seq<Network>) returns (r: Option<seq<SocketAddr>>)
    ensures r.None? <==> forall x | x in resolved :: !DirectAddress(x.ip, additional)
    ensures r.Some? ==> r.value != [] && DirectList(r.value, resolved, additional)
  {
    var seen: set<SocketAddr> := {};
    var kept: seq<SocketAddr> := [];
    ghost var at: seq<nat> := [];
    for n := 0 to |resolved|
      invariant forall x :: x in seen <==> x in kept
      invariant forall x :: x in kept <==> x in resolved[..n] && DirectAddress(x.ip, additional)
      invariant NoDuplicates(kept)
      invariant FirstAppearances(kept, resolved, at)
      invariant forall k | 0 <= k < |at| :: at[k] < n
    {
      var x := resolved[n];
      assert resolved[..n + 1] == resolved[..n] + [x];
      if DirectAddress(x.ip, additional) && x !in seen {
        seen := seen + {x};
        kept := kept + [x];
        at := at + [n];
      }
    }
    assert resolved[..|resolved|] == resolved;
    if kept == [] {
      r := None;
    } else {
      r := Some(kept);
      assert kept[0] in kept;
    }
  }
}
