/** The addresses that the block tables of src/net/destination-policy.js refuse, as ranges of octets and
    groups. */
module ReservedRanges {
  import opened Prelude
  import opened Bitwise
  import opened Ipv4
  import opened Ipv6
  import opened Prefixes
  import opened DestinationPolicy

  // ---- IPv4 ---------------------------------------------------------------------------------

  predicate Octets(a: nat, b: nat, c: nat, d: nat) {
    a < 256 && b < 256 && c < 256 && d < 256
  }

  function Value(a: nat, b: nat, c: nat, d: nat): nat {
    ((a * 256 + b) * 256 + c) * 256 + d
  }

  /** This network, private and loopback networks, multicast and everything above it. */
  predicate WholeNetworks(a: nat) {
    a == 0 || a == 10 || a == 127 || a >= 224
  }

  /** Shared and link-local addresses, the other two private ranges, benchmarking. */
  predicate PartNetworks(a: nat, b: nat) {
    || (a == 100 && 64 <= b <= 127) || (a == 169 && b == 254) || (a == 172 && 16 <= b <= 31)
    || (a == 192 && b == 168) || (a == 198 && 18 <= b <= 19)
  }

  /** Protocol assignments, documentation and the relay anycast block. */
  predicate SmallNetworks(a: nat, b: nat, c: nat) {
    || (a == 192 && b == 0 && (c == 0 || c == 2)) || (a == 192 && b == 31 && c == 196) || (a == 192 && b == 52 && c == 193)
    || (a == 192 && b == 88 && c == 99) || (a == 192 && b == 175 && c == 48)
    || (a == 198 && b == 51 && c == 100) || (a == 203 && b == 0 && c == 113)
  }

  predicate Reserved4(a: nat, b: nat, c: nat) {
    WholeNetworks(a) || PartNetworks(a, b) || SmallNetworks(a, b, c)
  }

  lemma Powers()
    ensures Pow2(8) == 0x100 && Pow2(16) == 0x1_0000 && Pow2(17) == 0x2_0000 && Pow2(20) == 0x10_0000
    ensures Pow2(22) == 0x40_0000 && Pow2(24) == 0x100_0000 && Pow2(28) == 0x1000_0000 && Pow2(32) == 0x1_0000_0000
  {
    Pow2At32();
    assert Pow2(4) == 16 && Pow2(6) == 64 && Pow2(8) == 256;
    Pow2Add(4, 16);
    Pow2Add(6, 16);
    Pow2Add(8, 16);
    Pow2Add(4, 24);
  }

  /** The top bits of an address, for the lengths in the table. */
  function Top(a: nat, b: nat, c: nat, bits: nat): nat {
    match bits
    case 4 => a / 16
    case 8 => a
    case 10 => a * 4 + b / 64
    case 12 => a * 16 + b / 16
    case 15 => a * 128 + b / 2
    case 16 => a * 256 + b
    case _ => (a * 256 + b) * 256 + c
  }

  predicate Length(bits: nat) {
    bits == 4 || bits == 8 || bits == 10 || bits == 12 || bits == 15 || bits == 16 || bits == 24
  }

  lemma TopIs(a: nat, b: nat, c: nat, d: nat, bits: nat)
    requires Octets(a, b, c, d) && Length(bits)
    ensures Value(a, b, c, d) / Pow2(32 - bits) == Top(a, b, c, bits)
  {
    Powers();
    hide Pow2;
    var v, low := Value(a, b, c, d), c * 256 + d;
    if bits == 24 {
      DivModUnique(v, 0x100, Top(a, b, c, bits), d);
    } else if bits == 16 {
      DivModUnique(v, 0x1_0000, Top(a, b, c, bits), low);
    } else if bits == 15 {
      DivModUnique(v, 0x2_0000, Top(a, b, c, bits), b % 2 * 0x1_0000 + low);
    } else if bits == 12 {
      DivModUnique(v, 0x10_0000, Top(a, b, c, bits), b % 16 * 0x1_0000 + low);
    } else if bits == 10 {
      DivModUnique(v, 0x40_0000, Top(a, b, c, bits), b % 64 * 0x1_0000 + low);
    } else if bits == 8 {
      DivModUnique(v, 0x100_0000, Top(a, b, c, bits), b * 0x1_0000 + low);
    } else {
      DivModUnique(v, 0x1000_0000, Top(a, b, c, bits), a % 16 * 0x100_0000 + b * 0x1_0000 + low);
    }
  }

  /** An address is in a block exactly when the top bits of the two agree. */
  lemma InBlock(a: nat, b: nat, c: nat, d: nat, base: string, w: nat, x: nat, y: nat, bits: nat)
    requires Octets(a, b, c, d) && Octets(w, x, y, 0) && base == Dotted(w, x, y, 0) && Length(bits)
    ensures InV4Cidr(Value(a, b, c, d), base, bits) <==> Top(a, b, c, bits) == Top(w, x, y, bits)
  {
    hide Dotted, Ipv4Value, InV4Cidr, Top, Pow2;
    Powers();
    DottedParses(w, x, y, 0);
    V4Prefix(Value(a, b, c, d), base, bits);
    TopIs(a, b, c, d, bits);
    TopIs(w, x, y, 0, bits);
  }

  ghost predicate Inside(v: nat, i: nat)
    requires i < 18
  {
    InV4Cidr(v, IPV4_FORBIDDEN[i].base, IPV4_FORBIDDEN[i].bits)
  }

  lemma SafeIsOutside(v: nat)
    ensures Safe4(v) <==> forall i: nat :: i < 18 ==> !Inside(v, i)
  {
    hide InV4Cidr;
    assert |IPV4_FORBIDDEN| == 18;
    hide IPV4_FORBIDDEN;
    if Safe4(v) {
      forall i: nat | i < 18 ensures !Inside(v, i) {
        assert IPV4_FORBIDDEN[i] in IPV4_FORBIDDEN;
      }
    } else {
      var block :| block in IPV4_FORBIDDEN && InV4Cidr(v, block.base, block.bits);
      var i: nat :| i < 18 && IPV4_FORBIDDEN[i] == block;
      assert Inside(v, i);
    }
  }

  ghost predicate Entry(i: nat, w: nat, x: nat, y: nat, bits: nat)
    requires i < 18
  {
    Octets(w, x, y, 0) && Length(bits) && IPV4_FORBIDDEN[i].base == Dotted(w, x, y, 0) && IPV4_FORBIDDEN[i].bits == bits
  }

  lemma LowNetworks()
    ensures Entry(0, 0, 0, 0, 8) && Entry(1, 10, 0, 0, 8) && Entry(3, 127, 0, 0, 8)
  {
  }

  lemma HighNetworks()
    ensures Entry(16, 224, 0, 0, 4) && Entry(17, 240, 0, 0, 4)
  {
  }

  lemma SharedAndLocal()
    ensures Entry(2, 100, 64, 0, 10) && Entry(4, 169, 254, 0, 16)
  {
  }

  lemma PrivateAndBenchmarking()
    ensures Entry(5, 172, 16, 0, 12) && Entry(11, 192, 168, 0, 16) && Entry(13, 198, 18, 0, 15)
  {
  }

  lemma Assignments()
    ensures Entry(6, 192, 0, 0, 24) && Entry(8, 192, 31, 196, 24) && Entry(9, 192, 52, 193, 24)
  {
  }

  lemma RelayAndAssignment()
    ensures Entry(10, 192, 88, 99, 24) && Entry(12, 192, 175, 48, 24)
  {
  }

  lemma Documentation()
    ensures Entry(7, 192, 0, 2, 24) && Entry(14, 198, 51, 100, 24) && Entry(15, 203, 0, 113, 24)
  {
  }

  lemma InsideIff(a: nat, b: nat, c: nat, d: nat, i: nat, w: nat, x: nat, y: nat, bits: nat)
    requires Octets(a, b, c, d) && i < 18 && Entry(i, w, x, y, bits)
    ensures Inside(Value(a, b, c, d), i) <==> Top(a, b, c, bits) == Top(w, x, y, bits)
  {
    assert |IPV4_FORBIDDEN| == 18;
    hide InV4Cidr, Dotted, IPV4_FORBIDDEN, Top;
    InBlock(a, b, c, d, IPV4_FORBIDDEN[i].base, w, x, y, bits);
  }

  lemma WholeBlocks(a: nat, b: nat, c: nat, d: nat)
    requires Octets(a, b, c, d)
    ensures var v := Value(a, b, c, d);
      WholeNetworks(a) <==> Inside(v, 0) || Inside(v, 1) || Inside(v, 3) || Inside(v, 16) || Inside(v, 17)
  {
    hide Entry, Inside;
    LowNetworks();
    HighNetworks();
    InsideIff(a, b, c, d, 0, 0, 0, 0, 8);
    InsideIff(a, b, c, d, 1, 10, 0, 0, 8);
    InsideIff(a, b, c, d, 3, 127, 0, 0, 8);
    InsideIff(a, b, c, d, 16, 224, 0, 0, 4);
    InsideIff(a, b, c, d, 17, 240, 0, 0, 4);
  }

  lemma PartBlocks(a: nat, b: nat, c: nat, d: nat)
    requires Octets(a, b, c, d)
    ensures var v := Value(a, b, c, d);
      PartNetworks(a, b) <==> Inside(v, 2) || Inside(v, 4) || Inside(v, 5) || Inside(v, 11) || Inside(v, 13)
  {
    hide Entry, Inside;
    SharedAndLocal();
    PrivateAndBenchmarking();
    InsideIff(a, b, c, d, 2, 100, 64, 0, 10);
    InsideIff(a, b, c, d, 4, 169, 254, 0, 16);
    InsideIff(a, b, c, d, 5, 172, 16, 0, 12);
    InsideIff(a, b, c, d, 11, 192, 168, 0, 16);
    InsideIff(a, b, c, d, 13, 198, 18, 0, 15);
  }

  lemma SmallBlocks(a: nat, b: nat, c: nat, d: nat)
    requires Octets(a, b, c, d)
    ensures var v := Value(a, b, c, d);
      SmallNetworks(a, b, c) <==>
        || Inside(v, 6) || Inside(v, 7) || Inside(v, 8) || Inside(v, 9)
        || Inside(v, 10) || Inside(v, 12) || Inside(v, 14) || Inside(v, 15)
  {
    hide Entry, Inside;
    Assignments();
    RelayAndAssignment();
    Documentation();
    InsideIff(a, b, c, d, 6, 192, 0, 0, 24);
    InsideIff(a, b, c, d, 7, 192, 0, 2, 24);
    InsideIff(a, b, c, d, 8, 192, 31, 196, 24);
    InsideIff(a, b, c, d, 9, 192, 52, 193, 24);
    InsideIff(a, b, c, d, 10, 192, 88, 99, 24);
    InsideIff(a, b, c, d, 12, 192, 175, 48, 24);
    InsideIff(a, b, c, d, 14, 198, 51, 100, 24);
    InsideIff(a, b, c, d, 15, 203, 0, 113, 24);
  }

  lemma Safe4Iff(a: nat, b: nat, c: nat, d: nat)
    requires Octets(a, b, c, d)
    ensures Safe4(Value(a, b, c, d)) <==> !Reserved4(a, b, c)
  {
    hide Safe4, Inside, WholeNetworks, PartNetworks, SmallNetworks;
    SafeIsOutside(Value(a, b, c, d));
    WholeBlocks(a, b, c, d);
    PartBlocks(a, b, c, d);
    SmallBlocks(a, b, c, d);
  }

  /** A dotted quad is allowed exactly outside those ranges. */
  lemma QuadAllowedIff(a: nat, b: nat, c: nat, d: nat, p: Policy)
    requires Octets(a, b, c, d) && Recognises(p) && Tables(p)
    ensures ClassifyAddress(Dotted(a, b, c, d), p).allowed <==> !Reserved4(a, b, c)
  {
    hide Bare, Dotted, Ipv4Value, Safe4, ClassifyAddress, Tables, Reserved4;
    DottedIsBare(a, b, c, d);
    DottedParses(a, b, c, d);
    AllowedIff(Dotted(a, b, c, d), p);
    Safe4Iff(a, b, c, d);
  }

  // ---- IPv6 ---------------------------------------------------------------------------------

  predicate Address6(g: seq<nat>) {
    |g| == 8 && IsGroups(g)
  }

  /** The unspecified and the loopback address, the local translation and discard prefixes. */
  predicate LowReserved(g: seq<nat>)
    requires |g| == 8
  {
    || (g[0] == 0 && g[1] == 0 && g[2] == 0 && g[3] == 0 && g[4] == 0 && g[5] == 0 && g[6] == 0 && g[7] <= 1)
    || (g[0] == 0x64 && g[1] == 0xff9b && g[2] == 1)
    || (g[0] == 0x100 && g[1] == 0 && g[2] == 0 && g[3] == 0)
  }

  /** Teredo, ORCHID, documentation and 6to4. */
  predicate GlobalReserved(g: seq<nat>)
    requires |g| == 8
  {
    (g[0] == 0x2001 && (g[1] == 0 || 0x20 <= g[1] <= 0x2f || g[1] == 0xdb8)) || g[0] == 0x2002
  }

  /** Unique-local, link-local and multicast addresses. */
  predicate HighReserved(g: seq<nat>)
    requires |g| == 8
  {
    0xfc00 <= g[0] <= 0xfdff || 0xfe80 <= g[0] <= 0xfebf || g[0] >= 0xff00
  }

  /** The last two groups are an IPv4 address: compatible, mapped or translated. */
  predicate EmbedsQuad(g: seq<nat>)
    requires |g| == 8
  {
    && g[2] == 0 && g[3] == 0 && g[4] == 0
    && ((g[0] == 0 && g[1] == 0 && (g[5] == 0 || g[5] == 0xffff)) || (g[0] == 0x64 && g[1] == 0xff9b && g[5] == 0))
  }

  predicate Reserved6(g: seq<nat>)
    requires |g| == 8
  {
    || LowReserved(g) || GlobalReserved(g) || HighReserved(g)
    || (EmbedsQuad(g) && Reserved4(g[6] / 256, g[6] % 256, g[7] / 256))
  }

  predicate SameFirst(g: seq<nat>, b: seq<nat>, n: nat)
    requires |g| == |b| == 8 && n <= 8
  {
    forall k :: 0 <= k < n ==> g[k] == b[k]
  }

  /** Membership in a block of whole groups. */
  lemma InWhole(g: seq<nat>, base: string, b: seq<nat>, n: nat)
    requires Address6(g) && n <= 8 && |b| == 8 && Ipv6Groups(base) == Some(b)
    ensures InV6Cidr(g, base, 16 * n) <==> SameFirst(g, b, n)
  {
    GroupsAreSmall(base);
    hide Ipv6Groups, MaskedFrom, IsGroups;
    if InV6Cidr(g, base, 16 * n) {
      InBase(g, base, b, 16 * n, n);
    }
    if SameFirst(g, b, n) {
      SameGroups(g, b, 0, 16 * n);
    }
  }

  /** Membership in a block shorter than a group. */
  lemma InFirst(g: seq<nat>, base: string, b: seq<nat>, bits: nat)
    requires Address6(g) && 0 < bits <= 16 && |b| == 8 && Ipv6Groups(base) == Some(b)
    ensures InV6Cidr(g, base, bits) <==> g[0] / Pow2(16 - bits) == b[0] / Pow2(16 - bits)
  {
    GroupsAreSmall(base);
    hide Ipv6Groups, And, GroupMask, Pow2, MaskedFrom;
    MaskedLast(g, b, 0, bits);
    GroupAgree(g[0], b[0], bits);
  }

  lemma MaskedTwo(g: seq<nat>, b: seq<nat>, bits: nat)
    requires |g| == |b| == 8 && 16 < bits <= 32
    ensures MaskedFrom(g, b, 0, bits) <==>
              And(g[0], GroupMask(16)) == And(b[0], GroupMask(16)) && MaskedFrom(g, b, 1, bits - 16)
  {
    hide And, GroupMask;
  }

  lemma InMasked(g: seq<nat>, base: string, b: seq<nat>, bits: nat)
    requires Address6(g) && |b| == 8 && Ipv6Groups(base) == Some(b)
    ensures InV6Cidr(g, base, bits) <==> MaskedFrom(g, b, 0, bits)
    ensures g[0] < 0x10000 && g[1] < 0x10000 && b[0] < 0x10000 && b[1] < 0x10000
  {
    GroupsAreSmall(base);
    hide Ipv6Groups, MaskedFrom;
  }

  lemma WholeAgree(x: nat, y: nat)
    requires x < 0x10000 && y < 0x10000
    ensures And(x, GroupMask(16)) == And(y, GroupMask(16)) <==> x == y
  {
    assert Pow2(0) == 1;
    hide And, GroupMask, Pow2;
    GroupAgree(x, y, 16);
  }

  lemma TwelveAgree(x: nat, y: nat)
    requires x < 0x10000 && y < 0x10000
    ensures And(x, GroupMask(12)) == And(y, GroupMask(12)) <==> x / 16 == y / 16
  {
    assert Pow2(4) == 16;
    hide And, GroupMask, Pow2;
    GroupAgree(x, y, 12);
  }

  lemma TakesTwelve()
    ensures Take(12) == 12
  {
  }

  /** A group and twelve bits of the next. */
  lemma InSecond(g: seq<nat>, base: string, b: seq<nat>)
    requires Address6(g) && |b| == 8 && Ipv6Groups(base) == Some(b)
    ensures InV6Cidr(g, base, 28) <==> g[0] == b[0] && g[1] / 16 == b[1] / 16
  {
    InMasked(g, base, b, 28);
    hide *;
    MaskedTwo(g, b, 28);
    WholeAgree(g[0], b[0]);
    TakesTwelve();
    MaskedLast(g, b, 1, 12);
    TwelveAgree(g[1], b[1]);
  }

  ghost predicate Within(g: seq<nat>, i: nat)
    requires |g| == 8 && i < 14
  {
    InV6Cidr(g, IPV6_FORBIDDEN[i].base, IPV6_FORBIDDEN[i].bits)
  }

  ghost predicate Entry6(i: nat, base: string, bits: nat)
    requires i < 14
  {
    IPV6_FORBIDDEN[i].base == base && IPV6_FORBIDDEN[i].bits == bits
  }

  lemma LowEntries()
    ensures Entry6(0, "::", 128) && Entry6(1, "::1", 128) && Entry6(5, "64:ff9b:1::", 48) && Entry6(6, "100::", 64)
    ensures Entry6(2, "::", 96) && Entry6(3, "::ffff:0:0", 96) && Entry6(4, "64:ff9b::", 96)
  {
  }

  lemma HighEntries()
    ensures Entry6(7, "2001::", 32) && Entry6(8, "2001:20::", 28) && Entry6(9, "2001:db8::", 32) && Entry6(10, "2002::", 16)
    ensures Entry6(11, "fc00::", 7) && Entry6(12, "fe80::", 10) && Entry6(13, "ff00::", 8)
  {
  }

  lemma WithinWhole(g: seq<nat>, i: nat, base: string, b: seq<nat>, n: nat)
    requires Address6(g) && i < 14 && n <= 8 && Entry6(i, base, 16 * n) && |b| == 8 && Ipv6Groups(base) == Some(b)
    ensures Within(g, i) <==> SameFirst(g, b, n)
  {
    hide InV6Cidr, Ipv6Groups, IsGroups, SameFirst;
    InWhole(g, base, b, n);
  }

  lemma WithinFirst(g: seq<nat>, i: nat, base: string, b: seq<nat>, bits: nat)
    requires Address6(g) && i < 14 && 0 < bits <= 16 && Entry6(i, base, bits) && |b| == 8 && Ipv6Groups(base) == Some(b)
    ensures Within(g, i) <==> g[0] / Pow2(16 - bits) == b[0] / Pow2(16 - bits)
  {
    hide InV6Cidr, Ipv6Groups, IsGroups, Pow2;
    InFirst(g, base, b, bits);
  }

  lemma Unrolled(g: seq<nat>, b: seq<nat>)
    requires |g| == |b| == 8
    ensures SameFirst(g, b, 1) <==> g[0] == b[0]
    ensures SameFirst(g, b, 2) <==> g[0] == b[0] && g[1] == b[1]
    ensures SameFirst(g, b, 3) <==> g[0] == b[0] && g[1] == b[1] && g[2] == b[2]
    ensures SameFirst(g, b, 4) <==> g[0] == b[0] && g[1] == b[1] && g[2] == b[2] && g[3] == b[3]
    ensures SameFirst(g, b, 6) <==> SameFirst(g, b, 4) && g[4] == b[4] && g[5] == b[5]
    ensures SameFirst(g, b, 8) <==> SameFirst(g, b, 6) && g[6] == b[6] && g[7] == b[7]
  {
  }

  lemma BaseDiscard()
    ensures Ipv6Groups("100::") == Some([0x100, 0, 0, 0, 0, 0, 0, 0])
  {
    HexThree('1', '0', '0');
    hide Ipv6Groups;
    OneLeft("100::", "100", 0x100);
  }

  lemma LowBlocks(g: seq<nat>)
    requires Address6(g)
    ensures LowReserved(g) <==> Within(g, 0) || Within(g, 1) || Within(g, 5) || Within(g, 6)
  {
    hide Within, Ipv6Groups, IsGroups, Entry6, SameFirst;
    LowEntries();
    BaseUnspecified();
    BaseLoopback();
    BaseNat64Local();
    BaseDiscard();
    var none, one, local, discard: seq<nat> := [0, 0, 0, 0, 0, 0, 0, 0], [0, 0, 0, 0, 0, 0, 0, 1],
      [0x64, 0xff9b, 1, 0, 0, 0, 0, 0], [0x100, 0, 0, 0, 0, 0, 0, 0];
    WithinWhole(g, 0, "::", none, 8);
    WithinWhole(g, 1, "::1", one, 8);
    WithinWhole(g, 5, "64:ff9b:1::", local, 3);
    WithinWhole(g, 6, "100::", discard, 4);
    Unrolled(g, none);
    Unrolled(g, one);
    Unrolled(g, local);
    Unrolled(g, discard);
  }

  lemma GlobalBases()
    ensures Ipv6Groups("2001::") == Some([0x2001, 0, 0, 0, 0, 0, 0, 0])
    ensures Ipv6Groups("2002::") == Some([0x2002, 0, 0, 0, 0, 0, 0, 0])
  {
    HexOf('2', '0', '0', '1');
    HexOf('2', '0', '0', '2');
    hide Ipv6Groups;
    OneLeft("2001::", "2001", 0x2001);
    OneLeft("2002::", "2002", 0x2002);
  }

  lemma BaseOrchid()
    ensures Ipv6Groups("2001:20::") == Some([0x2001, 0x20, 0, 0, 0, 0, 0, 0])
  {
    HexOf('2', '0', '0', '1');
    HexOf('2', '0', '0', '0');
    hide Ipv6Groups;
    TwoLeft("2001:20::", "2001", "20");
  }

  lemma BaseDocumentation()
    ensures Ipv6Groups("2001:db8::") == Some([0x2001, 0xdb8, 0, 0, 0, 0, 0, 0])
  {
    HexOf('2', '0', '0', '1');
    HexThree('d', 'b', '8');
    hide Ipv6Groups;
    TwoLeft("2001:db8::", "2001", "db8");
  }

  lemma WithinSecond(g: seq<nat>, i: nat, base: string, b: seq<nat>)
    requires Address6(g) && i < 14 && Entry6(i, base, 28) && |b| == 8 && Ipv6Groups(base) == Some(b)
    ensures Within(g, i) <==> g[0] == b[0] && g[1] / 16 == b[1] / 16
  {
    hide InV6Cidr, Ipv6Groups, IsGroups;
    InSecond(g, base, b);
  }

  lemma GlobalBlocks(g: seq<nat>)
    requires Address6(g)
    ensures GlobalReserved(g) <==> Within(g, 7) || Within(g, 8) || Within(g, 9) || Within(g, 10)
  {
    hide Within, Ipv6Groups, IsGroups, Entry6, SameFirst;
    HighEntries();
    GlobalBases();
    BaseOrchid();
    BaseDocumentation();
    var teredo, documentation, relay: seq<nat> := [0x2001, 0, 0, 0, 0, 0, 0, 0], [0x2001, 0xdb8, 0, 0, 0, 0, 0, 0],
      [0x2002, 0, 0, 0, 0, 0, 0, 0];
    WithinWhole(g, 7, "2001::", teredo, 2);
    WithinWhole(g, 9, "2001:db8::", documentation, 2);
    WithinWhole(g, 10, "2002::", relay, 1);
    WithinSecond(g, 8, "2001:20::", [0x2001, 0x20, 0, 0, 0, 0, 0, 0]);
    Unrolled(g, teredo);
    Unrolled(g, documentation);
    Unrolled(g, relay);
  }

  lemma HighBases()
    ensures Ipv6Groups("fc00::") == Some([0xfc00, 0, 0, 0, 0, 0, 0, 0])
    ensures Ipv6Groups("fe80::") == Some([0xfe80, 0, 0, 0, 0, 0, 0, 0])
    ensures Ipv6Groups("ff00::") == Some([0xff00, 0, 0, 0, 0, 0, 0, 0])
  {
    HexOf('f', 'c', '0', '0');
    HexOf('f', 'e', '8', '0');
    HexOf('f', 'f', '0', '0');
    hide Ipv6Groups;
    OneLeft("fc00::", "fc00", 0xfc00);
    OneLeft("fe80::", "fe80", 0xfe80);
    OneLeft("ff00::", "ff00", 0xff00);
  }

  lemma FirstPowers()
    ensures Pow2(9) == 512 && Pow2(6) == 64 && Pow2(8) == 256
  {
  }

  lemma GroupIsSmall(g: seq<nat>)
    requires Address6(g)
    ensures g[0] < 0x10000
  {
  }

  lemma HighBlocks(g: seq<nat>)
    requires Address6(g)
    ensures HighReserved(g) <==> Within(g, 11) || Within(g, 12) || Within(g, 13)
  {
    hide Within, Ipv6Groups, IsGroups, Entry6, Pow2;
    FirstPowers();
    GroupIsSmall(g);
    HighEntries();
    HighBases();
    WithinFirst(g, 11, "fc00::", [0xfc00, 0, 0, 0, 0, 0, 0, 0], 7);
    WithinFirst(g, 12, "fe80::", [0xfe80, 0, 0, 0, 0, 0, 0, 0], 10);
    WithinFirst(g, 13, "ff00::", [0xff00, 0, 0, 0, 0, 0, 0, 0], 8);
  }

  lemma EmbeddingBlocks(g: seq<nat>)
    requires Address6(g)
    ensures EmbedsQuad(g) <==> Within(g, 2) || Within(g, 3) || Within(g, 4)
  {
    hide Within, Ipv6Groups, IsGroups, Entry6, SameFirst;
    LowEntries();
    BaseUnspecified();
    BaseMapped();
    BaseNat64();
    var none, mapped, nat64: seq<nat> := [0, 0, 0, 0, 0, 0, 0, 0], [0, 0, 0, 0, 0, 0xffff, 0, 0],
      [0x64, 0xff9b, 0, 0, 0, 0, 0, 0];
    WithinWhole(g, 2, "::", none, 6);
    WithinWhole(g, 3, "::ffff:0:0", mapped, 6);
    WithinWhole(g, 4, "64:ff9b::", nat64, 6);
    Unrolled(g, none);
    Unrolled(g, mapped);
    Unrolled(g, nat64);
  }

  predicate Embedding(i: nat) {
    2 <= i <= 4
  }

  lemma SafeIsOutside6(g: seq<nat>, embedded: bool)
    requires |g| == 8
    ensures SafeIn(g, IPV6_FORBIDDEN, embedded) <==> forall i: nat :: i < 14 && Within(g, i) ==> Embedding(i) && embedded
  {
    hide InV6Cidr;
    assert |IPV6_FORBIDDEN| == 14 && forall i: nat :: i < 14 ==> (IPV6_FORBIDDEN[i].embedsIpv4 <==> Embedding(i));
    hide IPV6_FORBIDDEN, Embedding;
    if SafeIn(g, IPV6_FORBIDDEN, embedded) {
      forall i: nat | i < 14 && Within(g, i) ensures Embedding(i) && embedded {
        assert IPV6_FORBIDDEN[i] in IPV6_FORBIDDEN;
      }
    } else {
      var block :| block in IPV6_FORBIDDEN && InV6Cidr(g, block.base, block.bits) && !(block.embedsIpv4 && embedded);
      var i: nat :| i < 14 && IPV6_FORBIDDEN[i] == block;
      assert Within(g, i);
    }
  }

  lemma LastGroups(g: seq<nat>)
    requires Address6(g)
    ensures var a, b, c, d := g[6] / 256, g[6] % 256, g[7] / 256, g[7] % 256;
      Octets(a, b, c, d) && Value(a, b, c, d) == g[6] * 0x10000 + g[7]
  {
    assert g[6] < 0x10000 && g[7] < 0x10000;
  }

  lemma Safe6Iff(g: seq<nat>)
    requires Address6(g)
    ensures Safe6(g) <==> !Reserved6(g)
  {
    hide Safe4, Within, LowReserved, GlobalReserved, HighReserved, EmbedsQuad, Reserved4, SafeIn, IsGroups;
    var embedded := Safe4(g[6] * 0x10000 + g[7]);
    LastGroups(g);
    Safe4Iff(g[6] / 256, g[6] % 256, g[7] / 256, g[7] % 256);
    SafeIsOutside6(g, embedded);
    LowBlocks(g);
    GlobalBlocks(g);
    HighBlocks(g);
    EmbeddingBlocks(g);
  }

  /** An IPv6 address, however spelled, is allowed exactly outside those ranges. */
  lemma AddressAllowedIff(x: string, s: Spelling, p: Policy)
    requires RecognisesExactly(p) && Tables(p) && Spells(x, s)
    ensures ClassifyAddress(x, p).allowed <==> !Reserved6(Address(s))
  {
    hide Legal, Address, ClassifyAddress, Tables, Safe6, Reserved6, IsGroups;
    SpellingNeverMatters(x, x, s, s, p);
    Parses(s);
    GroupsAreSmall(Text(s));
    Safe6Iff(Address(s));
  }
}
