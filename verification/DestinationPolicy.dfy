/** The address classifier of src/net/destination-policy.js and its two block tables. */
module DestinationPolicy {
  import opened Prelude
  import opened Bitwise
  import opened Integers
  import opened Strings
  import opened Ipv4
  import opened Ipv6
  import opened Prefixes

  datatype Block = Block(base: string, bits: nat, kind: string, embedsIpv4: bool)

  const IPV4_FORBIDDEN: seq<Block> := [
    Block("0.0.0.0", 8, "this-network", false),
    Block("10.0.0.0", 8, "private", false),
    Block("100.64.0.0", 10, "shared-address-space", false),
    Block("127.0.0.0", 8, "loopback", false),
    Block("169.254.0.0", 16, "link-local", false),
    Block("172.16.0.0", 12, "private", false),
    Block("192.0.0.0", 24, "protocol-assignments", false),
    Block("192.0.2.0", 24, "documentation", false),
    Block("192.31.196.0", 24, "protocol-assignments", false),
    Block("192.52.193.0", 24, "protocol-assignments", false),
    Block("192.88.99.0", 24, "relay", false),
    Block("192.168.0.0", 16, "private", false),
    Block("192.175.48.0", 24, "protocol-assignments", false),
    Block("198.18.0.0", 15, "benchmarking", false),
    Block("198.51.100.0", 24, "documentation", false),
    Block("203.0.113.0", 24, "documentation", false),
    Block("224.0.0.0", 4, "multicast", false),
    Block("240.0.0.0", 4, "reserved", false)
  ]

  const IPV6_FORBIDDEN: seq<Block> := [
    Block("::", 128, "unspecified", false),
    Block("::1", 128, "loopback", false),
    Block("::", 96, "v4-compatible", true),
    Block("::ffff:0:0", 96, "v4-mapped", true),
    Block("64:ff9b::", 96, "nat64", true),
    Block("64:ff9b:1::", 48, "nat64-local", false),
    Block("100::", 64, "discard", false),
    Block("2001::", 32, "teredo", false),
    Block("2001:20::", 28, "orchid", false),
    Block("2001:db8::", 32, "documentation", false),
    Block("2002::", 16, "6to4", false),
    Block("fc00::", 7, "unique-local", false),
    Block("fe80::", 10, "link-local", false),
    Block("ff00::", 8, "multicast", false)
  ]

  /** The runtime's address recognisers and the two tables, in the order they are searched. */
  datatype Policy = Policy(isIPv4: string -> bool, isIPv6: string -> bool, v4: seq<Block>, v6: seq<Block>)

  datatype Verdict = Verdict(family: Option<nat>, allowed: bool, kind: string, via: Option<string>)

  // ---- classification -----------------------------------------------------------------------

  /** White space and line terminators, as the source's language defines them. */
  predicate IsSpace(c: char) {
    var n := c as int;
    || 0x09 <= n <= 0x0d || n == 0x20 || n == 0xa0 || n == 0x1680 || 0x2000 <= n <= 0x200a
    || n == 0x2028 || n == 0x2029 || n == 0x202f || n == 0x205f || n == 0x3000 || n == 0xfeff
  }

  function TrimLeft(s: string): string {
    if s != "" && IsSpace(s[0]) then TrimLeft(s[1..]) else s
  }

  function TrimRight(s: string): string {
    if s != "" && IsSpace(s[|s| - 1]) then TrimRight(s[..|s| - 1]) else s
  }

  /** The trimmed text without a pair of enclosing brackets. */
  function Bare(ip: string): string {
    var text := TrimRight(TrimLeft(ip));
    if |text| >= 2 && text[0] == '[' && text[|text| - 1] == ']' then text[1..|text| - 1] else text
  }

  predicate Blank(s: string) {
    forall i :: 0 <= i < |s| ==> IsSpace(s[i])
  }

  /** It neither starts nor ends with a space. */
  predicate Solid(s: string) {
    s != "" && !IsSpace(s[0]) && !IsSpace(s[|s| - 1])
  }

  lemma {:induction false} TrimmedRight(s: string, after: string)
    requires Blank(after) && Solid(s)
    ensures TrimRight(s + after) == s
  {
    if after == "" {
      assert s + after == s;
    } else {
      var n := |after| - 1;
      TrimmedRight(s, after[..n]);
      assert (s + after)[..|s| + n] == s + after[..n];
    }
  }

  lemma {:induction false} LeftOnly(before: string, rest: string)
    requires Blank(before) && rest != "" && !IsSpace(rest[0])
    ensures TrimLeft(before + rest) == rest
  {
    if before == "" {
      assert before + rest == rest;
    } else {
      LeftOnly(before[1..], rest);
      assert (before + rest)[1..] == before[1..] + rest;
    }
  }

  lemma Trimmed(before: string, s: string, after: string)
    requires Blank(before) && Blank(after) && Solid(s)
    ensures TrimRight(TrimLeft(before + s + after)) == s
  {
    var rest := s + after;
    assert before + s + after == before + rest;
    LeftOnly(before, rest);
    TrimmedRight(s, after);
  }

  /** Space around an address goes, and one pair of brackets inside it. */
  lemma BareIs(before: string, s: string, after: string)
    requires Blank(before) && Blank(after)
    ensures Solid(s) && s[0] != '[' ==> Bare(before + s + after) == s
    ensures Bare(before + ("[" + s + "]") + after) == s
    ensures IsSpace(' ') && IsSpace('\t') && IsSpace('\n') && IsSpace('\r')
  {
    var bracketed := "[" + s + "]";
    assert bracketed[1..|bracketed| - 1] == s;
    Trimmed(before, bracketed, after);
    if Solid(s) {
      Trimmed(before, s, after);
    }
  }

  /** Every text the strict parser accepts is recognised as IPv4. */
  ghost predicate Recognises(p: Policy) {
    forall s :: Ipv4Value(s).Some? ==> p.isIPv4(s)
  }

  /** The first block from position `i` on that contains the address. */
  function FirstV4(value: nat, blocks: seq<Block>, i: nat): (r: Option<Block>)
    requires i <= |blocks|
    ensures r.None? <==> forall b :: b in blocks[i..] ==> !InV4Cidr(value, b.base, b.bits)
    ensures r.Some? ==> r.value in blocks && InV4Cidr(value, r.value.base, r.value.bits)
    decreases |blocks| - i
  {
    if i == |blocks| then None
    else
      assert blocks[i..] == [blocks[i]] + blocks[i + 1..];
      if InV4Cidr(value, blocks[i].base, blocks[i].bits) then Some(blocks[i]) else FirstV4(value, blocks, i + 1)
  }

  function FirstV6(groups: seq<nat>, blocks: seq<Block>, i: nat): (r: Option<Block>)
    requires |groups| == 8 && i <= |blocks|
    ensures r.Some? ==> r.value in blocks[i..] && InV6Cidr(groups, r.value.base, r.value.bits)
    ensures r.None? ==> forall b :: b in blocks[i..] ==> !InV6Cidr(groups, b.base, b.bits)
    decreases |blocks| - i
  {
    if i == |blocks| then None
    else
      assert blocks[i..] == [blocks[i]] + blocks[i + 1..];
      if InV6Cidr(groups, blocks[i].base, blocks[i].bits) then Some(blocks[i]) else FirstV6(groups, blocks, i + 1)
  }

  /** The block found is the first one in the order of the table. */
  lemma {:induction false} FirstV4IsFirst(value: nat, blocks: seq<Block>, i: nat) returns (k: nat)
    requires i <= |blocks| && FirstV4(value, blocks, i).Some?
    ensures i <= k < |blocks| && blocks[k] == FirstV4(value, blocks, i).value
    ensures forall j :: i <= j < k ==> !InV4Cidr(value, blocks[j].base, blocks[j].bits)
    decreases |blocks| - i
  {
    hide InV4Cidr;
    k := i;
    if !InV4Cidr(value, blocks[i].base, blocks[i].bits) {
      k := FirstV4IsFirst(value, blocks, i + 1);
    }
  }

  lemma {:induction false} FirstV6IsFirst(groups: seq<nat>, blocks: seq<Block>, i: nat) returns (k: nat)
    requires |groups| == 8 && i <= |blocks| && FirstV6(groups, blocks, i).Some?
    ensures i <= k < |blocks| && blocks[k] == FirstV6(groups, blocks, i).value
    ensures forall j :: i <= j < k ==> !InV6Cidr(groups, blocks[j].base, blocks[j].bits)
    decreases |blocks| - i
  {
    hide InV6Cidr;
    k := i;
    if !InV6Cidr(groups, blocks[i].base, blocks[i].bits) {
      k := FirstV6IsFirst(groups, blocks, i + 1);
    }
  }

  /** The dotted quad held in the last two groups. */
  function Embedded(groups: seq<nat>): string
    requires |groups| == 8 && IsGroups(groups)
  {
    Dotted(groups[6] / 256, groups[6] % 256, groups[7] / 256, groups[7] % 256)
  }

  lemma DottedIsBare(a: nat, b: nat, c: nat, d: nat)
    requires a < 256 && b < 256 && c < 256 && d < 256
    ensures Bare(Dotted(a, b, c, d)) == Dotted(a, b, c, d)
  {
  }

  lemma EmbeddedIsIpv4(groups: seq<nat>, p: Policy)
    requires |groups| == 8 && IsGroups(groups) && Recognises(p)
    ensures Bare(Embedded(groups)) == Embedded(groups) && p.isIPv4(Embedded(groups))
    ensures Ipv4Value(Embedded(groups)) == Some(groups[6] * 0x10000 + groups[7])
  {
    hide Bare, Dotted, Ipv4Value;
    DottedIsBare(groups[6] / 256, groups[6] % 256, groups[7] / 256, groups[7] % 256);
    DottedParses(groups[6] / 256, groups[6] % 256, groups[7] / 256, groups[7] % 256);
  }

  function ClassifyV4(bare: string, p: Policy): Verdict {
    if Ipv4Value(bare).None? then Verdict(Some(4), false, "unparseable", None)
    else
      var block := FirstV4(Ipv4Value(bare).value, p.v4, 0);
      if block.Some? then Verdict(Some(4), false, block.value.kind, None) else Verdict(Some(4), true, "public", None)
  }

  function ClassifyAddress(ip: string, p: Policy): Verdict
    requires Recognises(p)
    decreases p.isIPv4(Bare(ip)) == false
  {
    var bare := Bare(ip);
    if p.isIPv4(bare) then ClassifyV4(bare, p)
    else if !p.isIPv6(bare) && ':' !in bare then Verdict(None, false, "not-an-address", None)
    else if Ipv6Groups(bare).None? then Verdict(Some(6), false, "unparseable", None)
    else
      GroupsAreSmall(bare);
      var groups := Ipv6Groups(bare).value;
      var block := FirstV6(groups, p.v6, 0);
      if block.None? then Verdict(Some(6), true, "public", None)
      else if !block.value.embedsIpv4 then Verdict(Some(6), false, block.value.kind, None)
      else
        EmbeddedIsIpv4(groups, p);
        var inner := ClassifyAddress(Embedded(groups), p);
        Verdict(Some(6), inner.allowed, if inner.allowed then "public" else inner.kind, Some(block.value.kind))
  }

  method Classify(ip: string, p: Policy) returns (v: Verdict)
    requires Recognises(p)
    ensures v == ClassifyAddress(ip, p)
    decreases p.isIPv4(Bare(ip)) == false
  {
    hide Bare, Ipv4Value, Ipv6Groups, InV4Cidr, InV6Cidr, Dotted;
    var bare := Bare(ip);
    if p.isIPv4(bare) {
      var value := Ipv4ToInt(bare);
      if value.None? {
        return Verdict(Some(4), false, "unparseable", None);
      }
      for i := 0 to |p.v4|
        invariant FirstV4(value.value, p.v4, 0) == FirstV4(value.value, p.v4, i)
      {
        if InV4Cidr(value.value, p.v4[i].base, p.v4[i].bits) {
          return Verdict(Some(4), false, p.v4[i].kind, None);
        }
      }
      return Verdict(Some(4), true, "public", None);
    }
    if !p.isIPv6(bare) && ':' !in bare {
      return Verdict(None, false, "not-an-address", None);
    }
    var groups := Ipv6ToGroups(bare);
    if groups.None? {
      return Verdict(Some(6), false, "unparseable", None);
    }
    GroupsAreSmall(bare);
    for i := 0 to |p.v6|
      invariant FirstV6(groups.value, p.v6, 0) == FirstV6(groups.value, p.v6, i)
    {
      var block := p.v6[i];
      var inside := InV6(groups.value, block.base, block.bits);
      if inside {
        if !block.embedsIpv4 {
          return Verdict(Some(6), false, block.kind, None);
        }
        EmbeddedIsIpv4(groups.value, p);
        var inner := Classify(Embedded(groups.value), p);
        return Verdict(Some(6), inner.allowed, if inner.allowed then "public" else inner.kind, Some(block.kind));
      }
    }
    return Verdict(Some(6), true, "public", None);
  }

  // ---- the blocks' base addresses -----------------------------------------------------------

  lemma BaseIs(text: string, left: seq<string>, right: seq<string>, gs: seq<nat>)
    requires AllHex(left) && AllHex(right) && |left| + |right| <= 8 && Shape(left, true, right) == text
    requires gs == Values(left) + Zeros(8 - |left| - |right|) + Values(right)
    ensures Ipv6Groups(text) == Some(gs)
  {
    hide AllHex, Values, Zeros, Shape, Ipv6Groups;
    var s := Spelling(left, true, right, None, None);
    Parses(s);
    assert Text(s) == text + "" == text;
    assert Address(s) == gs + [] == gs;
  }

  lemma OneLeft(text: string, piece: string, g: nat)
    requires IsHex(piece) && text == piece + "::" && g == HexValue(piece)
    ensures Ipv6Groups(text) == Some([g, 0, 0, 0, 0, 0, 0, 0])
  {
    hide IsHex, HexValue, Ipv6Groups;
    assert [piece][..0] == [];
    assert Values([piece]) == [g];
    assert AllHex([piece]) && AllHex([]);
    assert Shape([piece], true, []) == text + "" == text;
    BaseIs(text, [piece], [], [g, 0, 0, 0, 0, 0, 0, 0]);
  }

  lemma NoPieces()
    ensures Values([]) == [] && Colons([]) == ""
  {
  }

  lemma TwoPieces(p: string, q: string)
    ensures Values([p, q]) == [HexValue(p), HexValue(q)] && Colons([p, q]) == p + ":" + q
  {
    hide HexValue;
    assert [p, q][..1] == [p] && [p][..0] == [] && [p, q][1..] == [q];
    assert Values([p]) == Values([]) + [HexValue(p)];
    assert Join([p, q], ':') == p + [':'] + Join([q], ':') == p + ":" + q;
  }

  lemma ThreePieces(p: string, q: string, r: string)
    ensures Values([p, q, r]) == [HexValue(p), HexValue(q), HexValue(r)] && Colons([p, q, r]) == p + ":" + q + ":" + r
  {
    hide HexValue;
    TwoPieces(p, q);
    assert [p, q, r] == [p, q] + [r] && [p, q, r][..2] == [p, q];
    Ipv6.JoinSnoc([p, q], r);
  }

  lemma TwoLeft(text: string, p: string, q: string)
    requires IsHex(p) && IsHex(q) && text == p + ":" + q + "::"
    ensures Ipv6Groups(text) == Some([HexValue(p), HexValue(q), 0, 0, 0, 0, 0, 0])
  {
    hide Ipv6Groups, Colons, Values, IsHex, HexValue;
    TwoPieces(p, q);
    NoPieces();
    assert AllHex([p, q]) && AllHex([]);
    assert Shape([p, q], true, []) == text + "" == text;
    BaseIs(text, [p, q], [], [HexValue(p), HexValue(q), 0, 0, 0, 0, 0, 0]);
  }

  lemma HexOf(a: char, b: char, c: char, d: char)
    ensures HexValue([a, b]) == HexDigit(a) * 16 + HexDigit(b)
    ensures HexValue([a, b, c, d]) == ((HexDigit(a) * 16 + HexDigit(b)) * 16 + HexDigit(c)) * 16 + HexDigit(d)
  {
    hide HexDigit;
    assert [a, b, c, d][..3] == [a, b, c] && [a, b, c][..2] == [a, b] && [a, b][..1] == [a];
    assert [a][..0] == "" && HexValue([a]) == HexDigit(a);
    assert HexValue([a, b, c]) == HexValue([a, b]) * 16 + HexDigit(c);
  }

  lemma BaseUnspecified()
    ensures Ipv6Groups("::") == Some([0, 0, 0, 0, 0, 0, 0, 0])
  {
    hide Ipv6Groups;
    assert Shape([], true, []) == "::";
    BaseIs("::", [], [], [0, 0, 0, 0, 0, 0, 0, 0]);
  }

  lemma BaseLoopback()
    ensures Ipv6Groups("::1") == Some([0, 0, 0, 0, 0, 0, 0, 1])
  {
    hide Ipv6Groups;
    assert Shape([], true, ["1"]) == "::1";
    BaseIs("::1", [], ["1"], [0, 0, 0, 0, 0, 0, 0, 1]);
  }

  lemma BaseMapped()
    ensures Ipv6Groups("::ffff:0:0") == Some([0, 0, 0, 0, 0, 0xffff, 0, 0])
  {
    hide Ipv6Groups, Colons, Values;
    HexOf('f', 'f', 'f', 'f');
    ThreePieces("ffff", "0", "0");
    NoPieces();
    BaseIs("::ffff:0:0", [], ["ffff", "0", "0"], [0, 0, 0, 0, 0, 0xffff, 0, 0]);
  }

  lemma BaseNat64()
    ensures Ipv6Groups("64:ff9b::") == Some([0x64, 0xff9b, 0, 0, 0, 0, 0, 0])
  {
    hide Ipv6Groups;
    HexOf('f', 'f', '9', 'b');
    HexOf('6', '4', '0', '0');
    TwoLeft("64:ff9b::", "64", "ff9b");
  }

  lemma BaseNat64Local()
    ensures Ipv6Groups("64:ff9b:1::") == Some([0x64, 0xff9b, 1, 0, 0, 0, 0, 0])
  {
    hide Ipv6Groups, Colons, Values;
    HexOf('f', 'f', '9', 'b');
    HexOf('6', '4', '0', '0');
    ThreePieces("64", "ff9b", "1");
    NoPieces();
    BaseIs("64:ff9b:1::", ["64", "ff9b", "1"], [], [0x64, 0xff9b, 1, 0, 0, 0, 0, 0]);
  }

  // ---- what membership in a block says about the groups -------------------------------------

  lemma {:induction false} WholeGroups(g: seq<nat>, b: seq<nat>, i: nat, remaining: nat, n: nat)
    requires |g| == |b| == 8 && IsGroups(g) && IsGroups(b) && i + n <= 8 && 16 * n <= remaining
    requires MaskedFrom(g, b, i, remaining)
    ensures forall k :: i <= k < i + n ==> g[k] == b[k]
    decreases n
  {
    hide And, GroupMask;
    if n > 0 {
      GroupAgree(g[i], b[i], 16);
      assert Pow2(0) == 1;
      WholeGroups(g, b, i + 1, remaining - 16, n - 1);
    }
  }

  lemma InBase(g: seq<nat>, base: string, b: seq<nat>, bits: nat, n: nat)
    requires |g| == |b| == 8 && IsGroups(g) && IsGroups(b) && Ipv6Groups(base) == Some(b)
    requires InV6Cidr(g, base, bits) && n <= 8 && 16 * n <= bits
    ensures forall k :: 0 <= k < n ==> g[k] == b[k]
  {
    hide Ipv6Groups, MaskedFrom;
    WholeGroups(g, b, 0, bits, n);
  }

  lemma FirstBits(g: seq<nat>, base: string, b: seq<nat>, bits: nat)
    requires |g| == |b| == 8 && IsGroups(g) && IsGroups(b) && Ipv6Groups(base) == Some(b)
    requires InV6Cidr(g, base, bits) && 0 < bits <= 16
    ensures g[0] / Pow2(16 - bits) == b[0] / Pow2(16 - bits)
  {
    hide Ipv6Groups, And, GroupMask, Pow2;
    GroupAgree(g[0], b[0], bits);
  }

  /** What the flat blocks say about an address. */
  predicate FlatShape(g: seq<nat>)
    requires |g| == 8
  {
    || g[0] >= 0x100
    || (g[0] == 0x64 && g[2] == 1)
    || (g[0] == 0 && g[5] == 0 && g[6] == 0 && g[7] <= 1)
  }

  /** What the blocks that embed an IPv4 address say about an address. */
  predicate EmbeddingShape(g: seq<nat>)
    requires |g| == 8
  {
    || (g[0] == 0x64 && g[2] == 0)
    || (g[0] == 0 && (g[5] == 0xffff || g[5] == 0))
  }

  lemma FlatZeros(g: seq<nat>, b: Block)
    requires |g| == 8 && IsGroups(g) && InV6Cidr(g, b.base, b.bits)
    requires b == IPV6_FORBIDDEN[0] || b == IPV6_FORBIDDEN[1]
    ensures FlatShape(g)
  {
    hide InV6Cidr, Ipv6Groups;
    BaseUnspecified();
    BaseLoopback();
    if b.base == "::" {
      InBase(g, "::", [0, 0, 0, 0, 0, 0, 0, 0], 128, 8);
    } else {
      InBase(g, "::1", [0, 0, 0, 0, 0, 0, 0, 1], 128, 8);
    }
  }

  lemma FlatNat64(g: seq<nat>)
    requires |g| == 8 && IsGroups(g) && InV6Cidr(g, "64:ff9b:1::", 48)
    ensures FlatShape(g)
  {
    hide InV6Cidr, Ipv6Groups;
    BaseNat64Local();
    InBase(g, "64:ff9b:1::", [0x64, 0xff9b, 1, 0, 0, 0, 0, 0], 48, 3);
  }

  lemma FlatOne(g: seq<nat>, base: string, piece: string, bits: nat)
    requires |g| == 8 && IsGroups(g) && InV6Cidr(g, base, bits) && 0 < bits
    requires IsHex(piece) && base == piece + "::" && 0x100 <= HexValue(piece) < 0x10000
    requires bits >= 7 && (bits < 16 ==> HexValue(piece) >= 0x8000)
    ensures FlatShape(g)
  {
    hide InV6Cidr, Ipv6Groups, HexValue, IsHex;
    OneLeft(base, piece, HexValue(piece));
    var b := [HexValue(piece), 0, 0, 0, 0, 0, 0, 0];
    if bits >= 16 {
      InBase(g, base, b, bits, 1);
    } else {
      FirstBits(g, base, b, bits);
      HighStays(g[0], b[0], bits);
    }
  }

  lemma HighStays(x: nat, y: nat, bits: nat)
    requires 7 <= bits < 16 && y >= 0x8000 && x / Pow2(16 - bits) == y / Pow2(16 - bits)
    ensures x >= 0x100
  {
    var d := Pow2(16 - bits);
    assert d <= 512 by {
      SmallPowers(16 - bits);
    }
    hide Pow2;
    assert x == x / d * d + x % d && y == y / d * d + y % d;
  }

  lemma SmallPowers(k: nat)
    requires k <= 9
    ensures Pow2(k) <= 512
  {
    assert Pow2(9) == 512;
    Pow2Add(k, 9 - k);
    MulOrder(1, Pow2(9 - k), Pow2(k));
  }

  lemma FlatBlock(g: seq<nat>, b: Block)
    requires |g| == 8 && IsGroups(g) && b in IPV6_FORBIDDEN && !b.embedsIpv4 && InV6Cidr(g, b.base, b.bits)
    ensures FlatShape(g)
  {
    hide InV6Cidr, Ipv6Groups, FlatShape;
    if b == IPV6_FORBIDDEN[0] || b == IPV6_FORBIDDEN[1] {
      FlatZeros(g, b);
    } else if b == IPV6_FORBIDDEN[5] {
      FlatNat64(g);
    } else if b == IPV6_FORBIDDEN[6] {
      HexThree('1', '0', '0');
      FlatOne(g, "100::", "100", 64);
    } else if b == IPV6_FORBIDDEN[8] {
      FlatOrchid(g);
    } else if b == IPV6_FORBIDDEN[9] {
      FlatDocumentation(g);
    } else {
      FlatFourDigits(g, b);
    }
  }

  lemma FlatFourDigits(g: seq<nat>, b: Block)
    requires |g| == 8 && IsGroups(g) && InV6Cidr(g, b.base, b.bits)
    requires b in [IPV6_FORBIDDEN[7], IPV6_FORBIDDEN[10], IPV6_FORBIDDEN[11], IPV6_FORBIDDEN[12], IPV6_FORBIDDEN[13]]
    ensures FlatShape(g)
  {
    hide InV6Cidr, Ipv6Groups, FlatShape;
    if b == IPV6_FORBIDDEN[7] {
      HexOf('2', '0', '0', '1');
      FlatOne(g, "2001::", "2001", 32);
    } else if b == IPV6_FORBIDDEN[10] {
      HexOf('2', '0', '0', '2');
      FlatOne(g, "2002::", "2002", 16);
    } else if b == IPV6_FORBIDDEN[11] {
      HexOf('f', 'c', '0', '0');
      FlatOne(g, "fc00::", "fc00", 7);
    } else if b == IPV6_FORBIDDEN[12] {
      HexOf('f', 'e', '8', '0');
      FlatOne(g, "fe80::", "fe80", 10);
    } else {
      HexOf('f', 'f', '0', '0');
      FlatOne(g, "ff00::", "ff00", 8);
    }
  }

  lemma HexThree(a: char, b: char, c: char)
    ensures HexValue([a, b, c]) == (HexDigit(a) * 16 + HexDigit(b)) * 16 + HexDigit(c)
  {
    hide HexDigit;
    HexOf(a, b, c, c);
    assert [a, b, c][..2] == [a, b];
  }

  lemma FlatOrchid(g: seq<nat>)
    requires |g| == 8 && IsGroups(g) && InV6Cidr(g, "2001:20::", 28)
    ensures FlatShape(g)
  {
    hide InV6Cidr, Ipv6Groups, Values;
    HexOf('2', '0', '0', '1');
    HexOf('2', '0', '0', '0');
    TwoLeft("2001:20::", "2001", "20");
    InBase(g, "2001:20::", [0x2001, 0x20, 0, 0, 0, 0, 0, 0], 28, 1);
  }

  lemma FlatDocumentation(g: seq<nat>)
    requires |g| == 8 && IsGroups(g) && InV6Cidr(g, "2001:db8::", 32)
    ensures FlatShape(g)
  {
    hide InV6Cidr, Ipv6Groups, Values;
    HexOf('2', '0', '0', '1');
    HexThree('d', 'b', '8');
    TwoLeft("2001:db8::", "2001", "db8");
    InBase(g, "2001:db8::", [0x2001, 0xdb8, 0, 0, 0, 0, 0, 0], 32, 1);
  }

  lemma EmbeddingBlock(g: seq<nat>, b: Block)
    requires |g| == 8 && IsGroups(g) && b in IPV6_FORBIDDEN && b.embedsIpv4 && InV6Cidr(g, b.base, b.bits)
    ensures EmbeddingShape(g)
  {
    hide InV6Cidr, Ipv6Groups;
    BaseUnspecified();
    BaseMapped();
    BaseNat64();
    if b == IPV6_FORBIDDEN[2] {
      InBase(g, "::", [0, 0, 0, 0, 0, 0, 0, 0], 96, 6);
    } else if b == IPV6_FORBIDDEN[3] {
      InBase(g, "::ffff:0:0", [0, 0, 0, 0, 0, 0xffff, 0, 0], 96, 6);
    } else {
      InBase(g, "64:ff9b::", [0x64, 0xff9b, 0, 0, 0, 0, 0, 0], 96, 6);
    }
  }

  // ---- the verdict --------------------------------------------------------------------------

  predicate Safe4(value: nat) {
    forall b :: b in IPV4_FORBIDDEN ==> !InV4Cidr(value, b.base, b.bits)
  }

  predicate SafeIn(g: seq<nat>, table: seq<Block>, embedded: bool)
    requires |g| == 8
  {
    forall b :: b in table && InV6Cidr(g, b.base, b.bits) ==> b.embedsIpv4 && embedded
  }

  /** In no flat block, and any embedded IPv4 address is itself safe. */
  predicate Safe6(g: seq<nat>)
    requires |g| == 8
  {
    SafeIn(g, IPV6_FORBIDDEN, Safe4(g[6] * 0x10000 + g[7]))
  }

  /** The verdict without any reference to the order of the tables. */
  predicate Permitted(bare: string, p: Policy) {
    if p.isIPv4(bare) then Ipv4Value(bare).Some? && Safe4(Ipv4Value(bare).value)
    else
      && (p.isIPv6(bare) || ':' in bare)
      && Ipv6Groups(bare).Some? && |Ipv6Groups(bare).value| == 8
      && Safe6(Ipv6Groups(bare).value)
  }

  /** The policy searches the two tables, in some order. */
  predicate Tables(p: Policy) {
    multiset(p.v4) == multiset(IPV4_FORBIDDEN) && multiset(p.v6) == multiset(IPV6_FORBIDDEN)
  }

  /** The declared tables with a strict recogniser are such a policy. */
  lemma DeclaredTables(isIPv6: string -> bool)
    ensures var p := Policy(s => Ipv4Value(s).Some?, isIPv6, IPV4_FORBIDDEN, IPV6_FORBIDDEN);
      Tables(p) && Recognises(p) && RecognisesExactly(p)
  {
    hide Ipv4Value, IPV4_FORBIDDEN, IPV6_FORBIDDEN;
  }

  lemma SameMembers<T>(a: seq<T>, b: seq<T>, x: T)
    requires multiset(a) == multiset(b)
    ensures x in a <==> x in b
  {
    assert x in a <==> x in multiset(a);
    assert x in b <==> x in multiset(b);
  }

  lemma V4Search(value: nat, blocks: seq<Block>, table: seq<Block>)
    requires multiset(blocks) == multiset(table)
    ensures FirstV4(value, blocks, 0).None? <==> forall b :: b in table ==> !InV4Cidr(value, b.base, b.bits)
  {
    hide InV4Cidr, FirstV4;
    assert blocks[0..] == blocks;
    forall b ensures b in blocks <==> b in table {
      SameMembers(blocks, table, b);
    }
  }

  lemma V4Verdict(bare: string, p: Policy)
    requires Tables(p)
    ensures ClassifyV4(bare, p).allowed <==> Ipv4Value(bare).Some? && Safe4(Ipv4Value(bare).value)
  {
    hide InV4Cidr, Ipv4Value, FirstV4;
    if Ipv4Value(bare).Some? {
      V4Search(Ipv4Value(bare).value, p.v4, IPV4_FORBIDDEN);
    }
  }

  lemma ThisNetwork(value: nat)
    requires value < 0x100_0000
    ensures !Safe4(value)
  {
    hide InV4Cidr, Ipv4Value;
    var b := IPV4_FORBIDDEN[0];
    ZeroDotted();
    Pow2At32();
    assert Pow2(24) == 0x100_0000 by {
      assert Pow2(8) == 256;
      Pow2Add(8, 16);
    }
    V4Prefix(value, "0.0.0.0", 8);
    assert InV4Cidr(value, b.base, b.bits);
  }

  lemma ZeroDotted()
    ensures Ipv4Value("0.0.0.0") == Some(0)
  {
    hide Ipv4Value;
    DottedParses(0, 0, 0, 0);
    assert Dotted(0, 0, 0, 0) == "0.0.0.0";
  }

  /** Where a flat block meets an embedding one, the embedded address is refused anyway. */
  lemma FlatAndEmbedding(g: seq<nat>)
    requires |g| == 8 && IsGroups(g) && FlatShape(g) && EmbeddingShape(g)
    ensures !Safe4(g[6] * 0x10000 + g[7])
  {
    hide Safe4;
    ThisNetwork(g[6] * 0x10000 + g[7]);
  }

  lemma V6Search(g: seq<nat>, blocks: seq<Block>, table: seq<Block>)
    requires |g| == 8 && multiset(blocks) == multiset(table)
    ensures var block := FirstV6(g, blocks, 0);
      && (block.Some? ==> block.value in table && InV6Cidr(g, block.value.base, block.value.bits))
      && (block.None? ==> forall b :: b in table ==> !InV6Cidr(g, b.base, b.bits))
  {
    hide InV6Cidr, FirstV6;
    assert blocks[0..] == blocks;
    forall b ensures b in blocks <==> b in table {
      SameMembers(blocks, table, b);
    }
  }

  /** The address is in both a flat block and one that embeds an IPv4 address. */
  predicate Meet(g: seq<nat>, flat: Block, embedding: Block)
    requires |g| == 8
  {
    && !flat.embedsIpv4 && InV6Cidr(g, flat.base, flat.bits)
    && embedding.embedsIpv4 && InV6Cidr(g, embedding.base, embedding.bits)
  }

  lemma Inconsistent(g: seq<nat>, flat: Block, embedding: Block)
    requires |g| == 8 && IsGroups(g) && flat in IPV6_FORBIDDEN && embedding in IPV6_FORBIDDEN
    requires Meet(g, flat, embedding)
    ensures !Safe4(g[6] * 0x10000 + g[7])
  {
    hide InV6Cidr, Safe4, FlatShape, EmbeddingShape;
    FlatBlock(g, flat);
    EmbeddingBlock(g, embedding);
    FlatAndEmbedding(g);
  }

  /** When a flat block never meets an embedding one unless the embedded address is refused, the
      first block found decides like all of them. */
  lemma FirstDecides(g: seq<nat>, blocks: seq<Block>, table: seq<Block>, embedded: bool)
    requires |g| == 8 && multiset(blocks) == multiset(table)
    requires forall flat, embedding :: flat in table && embedding in table && Meet(g, flat, embedding) ==> !embedded
    ensures var block := FirstV6(g, blocks, 0);
      SafeIn(g, table, embedded) <==> block.None? || (block.value.embedsIpv4 && embedded)
  {
    hide InV6Cidr, FirstV6;
    V6Search(g, blocks, table);
  }

  lemma V6Verdict(g: seq<nat>, p: Policy)
    requires |g| == 8 && IsGroups(g) && Tables(p)
    ensures var block := FirstV6(g, p.v6, 0);
      Safe6(g) <==> block.None? || (block.value.embedsIpv4 && Safe4(g[6] * 0x10000 + g[7]))
  {
    hide InV6Cidr, Safe4, FirstV6;
    forall flat, embedding | flat in IPV6_FORBIDDEN && embedding in IPV6_FORBIDDEN && Meet(g, flat, embedding)
      ensures !Safe4(g[6] * 0x10000 + g[7])
    {
      Inconsistent(g, flat, embedding);
    }
    FirstDecides(g, p.v6, IPV6_FORBIDDEN, Safe4(g[6] * 0x10000 + g[7]));
  }

  /** An address is allowed exactly when it is in no flat block and any IPv4 address it embeds is
      allowed, whatever the order of the tables. */
  lemma AllowedIff(ip: string, p: Policy)
    requires Recognises(p) && Tables(p)
    ensures ClassifyAddress(ip, p).allowed <==> Permitted(Bare(ip), p)
  {
    hide Bare, Ipv4Value, Ipv6Groups, InV6Cidr, Safe4, Safe6, FirstV6, ClassifyV4, Tables, Embedded;
    var bare := Bare(ip);
    if p.isIPv4(bare) {
      V4Verdict(bare, p);
    } else if Ipv6Groups(bare).Some? {
      GroupsAreSmall(bare);
      var g := Ipv6Groups(bare).value;
      V6Verdict(g, p);
      EmbeddedIsIpv4(g, p);
      V4Verdict(Embedded(g), p);
    }
  }

  lemma KindsAreNotPublic(b: Block)
    requires b in IPV4_FORBIDDEN || b in IPV6_FORBIDDEN
    ensures b.kind != "public"
  {
  }

  lemma V4Kind(bare: string, p: Policy)
    requires Tables(p)
    ensures ClassifyV4(bare, p).allowed <==> ClassifyV4(bare, p).kind == "public"
  {
    hide InV4Cidr, Ipv4Value, IPV4_FORBIDDEN, IPV6_FORBIDDEN, FirstV4;
    if Ipv4Value(bare).Some? && FirstV4(Ipv4Value(bare).value, p.v4, 0).Some? {
      var block := FirstV4(Ipv4Value(bare).value, p.v4, 0).value;
      SameMembers(p.v4, IPV4_FORBIDDEN, block);
      KindsAreNotPublic(block);
    }
  }

  /** The kind "public" is given exactly to allowed addresses, also through an embedded one. */
  lemma PublicIffAllowed(ip: string, p: Policy)
    requires Recognises(p) && Tables(p)
    ensures ClassifyAddress(ip, p).allowed <==> ClassifyAddress(ip, p).kind == "public"
  {
    hide Bare, Ipv4Value, Ipv6Groups, InV6Cidr, FirstV6, ClassifyV4, Embedded, IPV4_FORBIDDEN, IPV6_FORBIDDEN;
    var bare := Bare(ip);
    if p.isIPv4(bare) {
      V4Kind(bare, p);
    } else if Ipv6Groups(bare).Some? {
      GroupsAreSmall(bare);
      var g := Ipv6Groups(bare).value;
      EmbeddedIsIpv4(g, p);
      V4Kind(Embedded(g), p);
      var block := FirstV6(g, p.v6, 0);
      if block.Some? {
        assert p.v6[0..] == p.v6;
        SameMembers(p.v6, IPV6_FORBIDDEN, block.value);
        KindsAreNotPublic(block.value);
      }
    }
  }

  // ---- spellings and embedded addresses -----------------------------------------------------

  /** The recogniser accepts exactly the dotted quads the strict parser accepts. */
  ghost predicate RecognisesExactly(p: Policy) {
    Recognises(p) && forall s :: p.isIPv4(s) ==> Ipv4Value(s).Some?
  }

  /** The text, trimmed and without enclosing brackets, is this spelling. */
  predicate Spells(x: string, s: Spelling) {
    Legal(s) && Bare(x) == Text(s)
  }

  lemma BodyHasColon(s: Spelling)
    requires Legal(s)
    ensures ':' in BodyText(s)
  {
  }

  lemma SpelledIsNotIpv4(s: Spelling, p: Policy)
    requires Legal(s) && RecognisesExactly(p)
    ensures ':' in Text(s) && !p.isIPv4(Text(s))
  {
    hide Legal, Dotted, BodyText, Ipv4Value;
    var text := Text(s);
    BodyHasColon(s);
    if p.isIPv4(text) {
      var a, b, c, d := ParsedIsDotted(text);
      DottedWithout(Quad(a, b, c, d), ':');
    }
  }

  lemma SpellingPermitted(s: Spelling, p: Policy)
    requires Legal(s) && RecognisesExactly(p)
    ensures Permitted(Text(s), p) == Safe6(Address(s))
  {
    hide Legal, Address, Text, Ipv6Groups, Safe6;
    SpelledIsNotIpv4(s, p);
    Parses(s);
  }

  /** The whole verdict depends on the address, not on how it is spelled nor on the space or brackets
      around it. */
  lemma SpellingNeverMatters(x: string, y: string, s: Spelling, t: Spelling, p: Policy)
    requires RecognisesExactly(p) && Tables(p)
    requires Spells(x, s) && Spells(y, t) && Address(s) == Address(t)
    ensures ClassifyAddress(x, p) == ClassifyAddress(y, p)
    ensures ClassifyAddress(x, p).allowed == Safe6(Address(s))
  {
    hide Bare, Legal, Address, Text, Ipv6Groups, Ipv4Value, Safe6, Permitted, FirstV6, Embedded, Tables;
    SpelledIsNotIpv4(s, p);
    SpelledIsNotIpv4(t, p);
    Parses(s);
    Parses(t);
    AllowedIff(x, p);
    SpellingPermitted(s, p);
  }

  lemma MappedBlock(g: seq<nat>)
    requires |g| == 8 && IsGroups(g) && g[..6] == [0, 0, 0, 0, 0, 0xffff]
    ensures InV6Cidr(g, "::ffff:0:0", 96)
  {
    hide Ipv6Groups;
    BaseMapped();
    var b := [0, 0, 0, 0, 0, 0xffff, 0, 0];
    assert forall k :: 0 <= k < 6 ==> g[k] == g[..6][k];
    SameGroups(g, b, 0, 96);
  }

  lemma {:induction false} SameGroups(g: seq<nat>, b: seq<nat>, i: nat, remaining: nat)
    requires |g| == |b| == 8 && i <= 8 && remaining <= 16 * (8 - i)
    requires forall k :: i <= k < 8 && 16 * (k - i) < remaining ==> g[k] == b[k]
    ensures MaskedFrom(g, b, i, remaining)
    decreases 8 - i
  {
    hide And, GroupMask;
    if i < 8 && remaining > 0 {
      SameGroups(g, b, i + 1, remaining - Take(remaining));
    }
  }

  lemma MappedFlat(g: seq<nat>, block: Block)
    requires |g| == 8 && IsGroups(g) && g[..6] == [0, 0, 0, 0, 0, 0xffff]
    requires block in IPV6_FORBIDDEN && InV6Cidr(g, block.base, block.bits)
    ensures block.embedsIpv4
  {
    hide InV6Cidr;
    assert g[0] == g[..6][0] && g[5] == g[..6][5];
    if !block.embedsIpv4 {
      FlatBlock(g, block);
    }
  }

  lemma MappedSafe(g: seq<nat>)
    requires |g| == 8 && IsGroups(g) && g[..6] == [0, 0, 0, 0, 0, 0xffff]
    ensures Safe6(g) == Safe4(g[6] * 0x10000 + g[7])
  {
    hide InV6Cidr, Safe4;
    MappedBlock(g);
    assert IPV6_FORBIDDEN[3] == Block("::ffff:0:0", 96, "v4-mapped", true);
    hide IPV6_FORBIDDEN;
    forall block | block in IPV6_FORBIDDEN && InV6Cidr(g, block.base, block.bits)
      ensures block.embedsIpv4
    {
      MappedFlat(g, block);
    }
  }

  lemma MappedPermitted(s: Spelling, a: nat, b: nat, c: nat, d: nat, p: Policy)
    requires a < 256 && b < 256 && c < 256 && d < 256 && RecognisesExactly(p)
    requires Legal(s) && Address(s) == [0, 0, 0, 0, 0, 0xffff, a * 256 + b, c * 256 + d]
    ensures Permitted(Text(s), p) == Permitted(Dotted(a, b, c, d), p)
  {
    hide Legal, Address, Text, Dotted, Ipv6Groups, Ipv4Value, InV6Cidr, Safe4, Safe6;
    SpellingPermitted(s, p);
    DottedParses(a, b, c, d);
    MappedSafe(Address(s));
  }

  /** A v4-mapped address, however written, is allowed exactly when the IPv4 address in it is. */
  lemma MappedFollowsIpv4(x: string, s: Spelling, a: nat, b: nat, c: nat, d: nat, p: Policy)
    requires a < 256 && b < 256 && c < 256 && d < 256 && RecognisesExactly(p) && Tables(p)
    requires Spells(x, s) && Address(s) == [0, 0, 0, 0, 0, 0xffff, a * 256 + b, c * 256 + d]
    ensures ClassifyAddress(x, p).allowed == ClassifyAddress(Dotted(a, b, c, d), p).allowed
  {
    hide Bare, Legal, Address, Text, Dotted, Ipv4Value, Permitted, ClassifyAddress, Tables;
    MappedPermitted(s, a, b, c, d, p);
    DottedIsBare(a, b, c, d);
    AllowedIff(x, p);
    AllowedIff(Dotted(a, b, c, d), p);
  }

  lemma MappedEntry()
    ensures Block("::ffff:0:0", 96, "v4-mapped", true) in IPV6_FORBIDDEN
  {
    assert IPV6_FORBIDDEN[3] == Block("::ffff:0:0", 96, "v4-mapped", true);
  }

  lemma MappedFound(g: seq<nat>, p: Policy)
    requires |g| == 8 && IsGroups(g) && g[..6] == [0, 0, 0, 0, 0, 0xffff] && Tables(p)
    ensures FirstV6(g, p.v6, 0).Some? && FirstV6(g, p.v6, 0).value.embedsIpv4
  {
    hide IPV4_FORBIDDEN, IPV6_FORBIDDEN, InV6Cidr, FirstV6, IsGroups;
    MappedEntry();
    MappedBlock(g);
    V6Search(g, p.v6, IPV6_FORBIDDEN);
    MappedFlat(g, FirstV6(g, p.v6, 0).value);
  }

  /** And of the same kind. */
  lemma MappedSameKind(x: string, s: Spelling, a: nat, b: nat, c: nat, d: nat, p: Policy)
    requires a < 256 && b < 256 && c < 256 && d < 256 && RecognisesExactly(p) && Tables(p)
    requires Spells(x, s) && Address(s) == [0, 0, 0, 0, 0, 0xffff, a * 256 + b, c * 256 + d]
    ensures ClassifyAddress(x, p).kind == ClassifyAddress(Dotted(a, b, c, d), p).kind
    ensures ClassifyAddress(x, p).family == Some(6) && ClassifyAddress(Dotted(a, b, c, d), p).family == Some(4)
  {
    hide Legal, Address, Text, Dotted, Ipv4Value, Ipv6Groups, Tables, FirstV6, InV6Cidr, ClassifyV4, IPV6_FORBIDDEN, Bare;
    var g := Address(s);
    SpelledIsNotIpv4(s, p);
    Parses(s);
    MappedFound(g, p);
    assert Embedded(g) == Dotted(a, b, c, d);
    EmbeddedIsIpv4(g, p);
    EmbeddedKind(Dotted(a, b, c, d), p);
  }

  /** The kind alone tells whether an IPv4 address is allowed. */
  lemma EmbeddedKind(quad: string, p: Policy)
    requires Recognises(p) && Tables(p) && p.isIPv4(Bare(quad)) && Bare(quad) == quad
    ensures ClassifyAddress(quad, p) == ClassifyV4(quad, p) && ClassifyV4(quad, p).family == Some(4)
    ensures ClassifyV4(quad, p).allowed <==> ClassifyV4(quad, p).kind == "public"
  {
    hide Ipv4Value, FirstV4, Tables, Bare, InV4Cidr, IPV4_FORBIDDEN, IPV6_FORBIDDEN;
    V4Kind(quad, p);
  }

  // ---- redirect chains ----------------------------------------------------------------------

  datatype HopCheck = HopCheck(allowed: bool, reason: string)

  /** Checks the hops in order and stops at the first refusal. */
  method CheckRedirectChain(chain: seq<string>, check: string -> HopCheck)
    returns (allowed: bool, hops: seq<HopCheck>, refusedAt: Option<nat>)
    ensures allowed <==> forall i :: 0 <= i < |chain| ==> check(chain[i]).allowed
    ensures allowed <==> refusedAt.None?
    ensures refusedAt.Some? ==>
      && refusedAt.value < |chain| && !check(chain[refusedAt.value]).allowed
      && forall i :: 0 <= i < refusedAt.value ==> check(chain[i]).allowed
    ensures |hops| == (if refusedAt.Some? then refusedAt.value + 1 else |chain|)
    ensures forall i :: 0 <= i < |hops| ==> hops[i] == check(chain[i])
  {
    hops := [];
    for i := 0 to |chain|
      invariant |hops| == i
      invariant forall k :: 0 <= k < i ==> hops[k] == check(chain[k]) && check(chain[k]).allowed
    {
      var hop := check(chain[i]);
      hops := hops + [hop];
      if !hop.allowed {
        return false, hops, Some(i);
      }
    }
    return true, hops, None;
  }
}
