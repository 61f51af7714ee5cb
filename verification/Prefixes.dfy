/** The masks of src/net/destination-policy.js as numeric prefixes (section 3.1 of RFC 4632). */
module Prefixes {
  import opened Bitwise
  import opened Integers
  import opened Ipv4
  import opened Ipv6

  /** `ones << shift`, kept to `width` bits, where `ones` is `width` one bits. */
  function ShiftedOnes(width: nat, shift: nat): nat {
    (Pow2(width) - 1) * Pow2(shift) % Pow2(width)
  }

  lemma ShiftedOnesIs(width: nat, shift: nat)
    requires shift < width
    ensures Pow2(shift) < Pow2(width)
    ensures ShiftedOnes(width, shift) == Pow2(width) - Pow2(shift)
  {
    assert Pow2(width - shift) >= 2;
    hide Pow2;
    Pow2Add(shift, width - shift);
    OnesTimes(Pow2(width), Pow2(shift), Pow2(width - shift));
  }

  lemma OnesTimes(w: nat, p: nat, q: nat)
    requires p > 0 && q >= 2 && w == p * q
    ensures p < w && (w - 1) * p % w == w - p
  {
    MulOrder(2, q, p);
    assert (w - 1) * p == (p - 1) * w + (w - p);
    DivModUnique((w - 1) * p, w, p - 1, w - p);
  }

  lemma MaskedAgree(x: nat, y: nat, width: nat, shift: nat)
    requires shift < width && x < Pow2(width) && y < Pow2(width)
    ensures And(x, ShiftedOnes(width, shift)) == And(y, ShiftedOnes(width, shift)) <==>
      x / Pow2(shift) == y / Pow2(shift)
  {
    hide And, ShiftedOnes, Pow2;
    ShiftedOnesIs(width, shift);
    AndMask(x, width, shift);
    AndMask(y, width, shift);
    SameMultiple(x, y, Pow2(shift));
  }

  lemma SameMultiple(x: nat, y: nat, d: nat)
    requires d > 0
    ensures x - x % d == y - y % d <==> x / d == y / d
  {
    assert x - x % d == d * (x / d) && y - y % d == d * (y / d);
    if x / d < y / d {
      MulOrder(x / d + 1, y / d, d);
    } else if y / d < x / d {
      MulOrder(y / d + 1, x / d, d);
    }
  }

  // ---- IPv4 ---------------------------------------------------------------------------------

  /** A shift count is taken modulo 32, hence the case for no bits. */
  predicate InV4Cidr(value: nat, base: string, bits: nat) {
    if Ipv4Value(base).None? then false
    else if bits == 0 then true
    else
      var mask := ShiftedOnes(32, (32 - bits) % 32);
      And(value, mask) == And(Ipv4Value(base).value, mask)
  }

  lemma ValueFits(ip: string)
    requires Ipv4Value(ip).Some?
    ensures Ipv4Value(ip).value < Pow2(32)
  {
    hide Ipv4Value, Dotted;
    var a, b, c, d := ParsedIsDotted(ip);
    Pow2At32();
  }

  /** An IPv4 address is in a block exactly when the top `bits` bits agree. */
  lemma V4Prefix(value: nat, base: string, bits: nat)
    requires bits <= 32 && value < Pow2(32)
    ensures InV4Cidr(value, base, bits) <==>
      Ipv4Value(base).Some? && value / Pow2(32 - bits) == Ipv4Value(base).value / Pow2(32 - bits)
  {
    hide Ipv4Value, And, ShiftedOnes, Pow2;
    if Ipv4Value(base).Some? {
      ValueFits(base);
      var b := Ipv4Value(base).value;
      if bits == 0 {
        DivModUnique(value, Pow2(32), 0, value);
        DivModUnique(b, Pow2(32), 0, b);
      } else {
        MaskedAgree(value, b, 32, 32 - bits);
      }
    }
  }

  // ---- IPv6 ---------------------------------------------------------------------------------

  function Take(remaining: nat): nat {
    if remaining < 16 then remaining else 16
  }

  function GroupMask(take: nat): nat
    requires take <= 16
  {
    if take == 16 then 0xffff else ShiftedOnes(16, 16 - take)
  }

  /** The loop of the block test from group `i` on. */
  predicate MaskedFrom(g: seq<nat>, b: seq<nat>, i: nat, remaining: nat)
    requires |g| == |b| == 8 && i <= 8
    decreases 8 - i
  {
    i < 8 && remaining > 0 ==>
      var mask := GroupMask(Take(remaining));
      And(g[i], mask) == And(b[i], mask) && MaskedFrom(g, b, i + 1, remaining - Take(remaining))
  }

  predicate InV6Cidr(groups: seq<nat>, base: string, bits: nat)
    requires |groups| == 8
  {
    if Ipv6Groups(base).None? || |Ipv6Groups(base).value| != 8 then false
    else MaskedFrom(groups, Ipv6Groups(base).value, 0, bits)
  }

  method InV6(groups: seq<nat>, base: string, bits: nat) returns (r: bool)
    requires |groups| == 8
    ensures r == InV6Cidr(groups, base, bits)
  {
    hide And, GroupMask, Ipv6Groups;
    var parsed := Ipv6ToGroups(base);
    if parsed.None? {
      return false;
    }
    GroupsAreSmall(base);
    var baseGroups := parsed.value;
    var remaining := bits;
    var i := 0;
    while i < 8 && remaining > 0
      invariant i <= 8
      invariant MaskedFrom(groups, baseGroups, 0, bits) == MaskedFrom(groups, baseGroups, i, remaining)
    {
      var take := Take(remaining);
      var mask := GroupMask(take);
      if And(groups[i], mask) != And(baseGroups[i], mask) {
        return false;
      }
      remaining := remaining - take;
      i := i + 1;
    }
    return true;
  }

  /** The number that groups `i` to 7 write. */
  function Number(gs: seq<nat>, i: nat): nat
    requires |gs| == 8 && i <= 8
    decreases 8 - i
  {
    if i == 8 then 0 else gs[i] * Pow2(16 * (7 - i)) + Number(gs, i + 1)
  }

  lemma {:induction false} NumberFits(gs: seq<nat>, i: nat)
    requires |gs| == 8 && IsGroups(gs) && i <= 8
    ensures Number(gs, i) < Pow2(16 * (8 - i))
    decreases 8 - i
  {
    if i < 8 {
      NumberFits(gs, i + 1);
      Pow2At32();
      hide Pow2;
      Pow2Add(16, 16 * (7 - i));
      Below(gs[i], Number(gs, i + 1), Pow2(16 * (7 - i)));
    } else {
      assert Pow2(0) == 1;
    }
  }

  lemma Below(x: nat, r: nat, w: nat)
    requires x < 0x10000 && r < w
    ensures x * w + r < 0x10000 * w
  {
    MulOrder(x + 1, 0x10000, w);
  }

  lemma GroupFits(gs: seq<nat>, i: nat)
    requires IsGroups(gs) && i < |gs|
    ensures gs[i] < 0x10000
  {
  }

  lemma GroupAgree(x: nat, y: nat, take: nat)
    requires 0 < take <= 16 && x < 0x10000 && y < 0x10000
    ensures And(x, GroupMask(take)) == And(y, GroupMask(take)) <==> x / Pow2(16 - take) == y / Pow2(16 - take)
  {
    Pow2At32();
    assert Pow2(0) == 1;
    hide And, Pow2;
    if take == 16 {
      AndMask(x, 16, 0);
      AndMask(y, 16, 0);
    } else {
      MaskedAgree(x, y, 16, 16 - take);
    }
  }

  /** Dividing away a low part: the quotient of the high part alone. */
  lemma HighPart(x: nat, w: nat, r: nat, p: nat)
    requires r < w && p > 0
    ensures p * w > 0 && (x * w + r) / (p * w) == x / p
  {
    var q, m := x / p, x % p;
    assert x == q * p + m;
    MulOrder(m + 1, p, w);
    assert x * w + r == q * (p * w) + (m * w + r) by {
      assert x * w == q * p * w + m * w;
    }
    assert m * w + r < p * w;
    MulOrder(1, p, w);
    DivModUnique(x * w + r, p * w, q, m * w + r);
  }

  lemma Regroup(x: nat, d: nat, q: nat, k: nat)
    ensures x * (d * q) == x * q * d && (x * q + k) * d == x * q * d + k * d
  {
  }

  /** Dividing into the low part: the high part is kept whole. */
  lemma LowPart(x: nat, w: nat, r: nat, d: nat, q: nat)
    requires d > 0 && w == d * q && r < w
    ensures (x * w + r) / d == x * q + r / d && r / d < q
  {
    var k, m := r / d, r % d;
    assert r == k * d + m;
    Regroup(x, d, q, k);
    DivModUnique(x * w + r, d, x * q + k, m);
    if k >= q {
      MulOrder(q, k, d);
    }
  }

  lemma Digits(x: nat, y: nat, q: nat, r: nat, s: nat)
    requires r < q && s < q
    ensures x * q + r == y * q + s <==> x == y && r == s
  {
    DivModUnique(x * q + r, q, x, r);
    DivModUnique(y * q + s, q, y, s);
  }

  lemma {:induction false} MaskedIsPrefix(g: seq<nat>, b: seq<nat>, i: nat, remaining: nat)
    requires |g| == |b| == 8 && IsGroups(g) && IsGroups(b) && i <= 8 && remaining <= 16 * (8 - i)
    ensures MaskedFrom(g, b, i, remaining) <==>
      Number(g, i) / Pow2(16 * (8 - i) - remaining) == Number(b, i) / Pow2(16 * (8 - i) - remaining)
    decreases 8 - i
  {
    hide And, GroupMask, Pow2, IsGroups;
    var d := Pow2(16 * (8 - i) - remaining);
    if i == 8 || remaining == 0 {
      NumberFits(g, i);
      NumberFits(b, i);
      DivModUnique(Number(g, i), d, 0, Number(g, i));
      DivModUnique(Number(b, i), d, 0, Number(b, i));
    } else {
      NumberFits(g, i + 1);
      NumberFits(b, i + 1);
      GroupFits(g, i);
      GroupFits(b, i);
      if remaining <= 16 {
        GroupAgree(g[i], b[i], Take(remaining));
        LastGroup(g, b, i, remaining);
      } else {
        FullGroup(g, b, i, remaining);
      }
    }
  }

  /** A high part in units of `w` and a low part below it. */
  predicate Parts(n: nat, x: nat, w: nat, r: nat) {
    r < w && n == x * w + r
  }

  function Div(n: nat, d: nat): nat
    requires d > 0
  {
    n / d
  }

  predicate Splits(w: nat, d: nat, q: nat) {
    w == d * q
  }

  lemma MaskedLast(g: seq<nat>, b: seq<nat>, i: nat, remaining: nat)
    requires |g| == |b| == 8 && i < 8 && 0 < remaining <= 16
    ensures MaskedFrom(g, b, i, remaining) <==>
      And(g[i], GroupMask(Take(remaining))) == And(b[i], GroupMask(Take(remaining)))
  {
    hide And, GroupMask;
  }

  lemma HighParts(n: nat, x: nat, w: nat, r: nat, d: nat, p: nat)
    requires p > 0 && Splits(d, p, w) && Parts(n, x, w, r)
    ensures d > 0 && Div(n, d) == Div(x, p)
  {
    HighPart(x, w, r, p);
  }

  lemma LastGroup(g: seq<nat>, b: seq<nat>, i: nat, remaining: nat)
    requires |g| == |b| == 8 && i < 8 && 0 < remaining <= 16
    requires Number(g, i + 1) < Pow2(16 * (7 - i)) && Number(b, i + 1) < Pow2(16 * (7 - i))
    requires And(g[i], GroupMask(Take(remaining))) == And(b[i], GroupMask(Take(remaining))) <==>
      g[i] / Pow2(16 - remaining) == b[i] / Pow2(16 - remaining)
    ensures MaskedFrom(g, b, i, remaining) <==>
      Number(g, i) / Pow2(16 * (8 - i) - remaining) == Number(b, i) / Pow2(16 * (8 - i) - remaining)
  {
    hide And, GroupMask, Pow2, MaskedFrom, Number;
    var w, p, d := Pow2(16 * (7 - i)), Pow2(16 - remaining), Pow2(16 * (8 - i) - remaining);
    MaskedLast(g, b, i, remaining);
    Pow2Add(16 - remaining, 16 * (7 - i));
    NumberStep(g, i);
    NumberStep(b, i);
    hide Parts, Splits;
    HighParts(Number(g, i), g[i], w, Number(g, i + 1), d, p);
    HighParts(Number(b, i), b[i], w, Number(b, i + 1), d, p);
  }

  lemma DividedParts(n: nat, x: nat, w: nat, r: nat, d: nat, q: nat)
    requires d > 0 && Splits(w, d, q) && Parts(n, x, w, r)
    ensures Parts(Div(n, d), x, q, Div(r, d))
  {
    LowPart(x, w, r, d, q);
  }

  lemma SameParts(n: nat, x: nat, r: nat, m: nat, y: nat, s: nat, w: nat)
    requires Parts(n, x, w, r) && Parts(m, y, w, s)
    ensures n == m <==> x == y && r == s
  {
    Digits(x, y, w, r, s);
  }

  lemma TwoParts(n: nat, x: nat, r: nat, m: nat, y: nat, s: nat, w: nat, d: nat, q: nat)
    requires d > 0 && Splits(w, d, q) && Parts(n, x, w, r) && Parts(m, y, w, s)
    ensures Div(n, d) == Div(m, d) <==> x == y && Div(r, d) == Div(s, d)
  {
    hide *;
    DividedParts(n, x, w, r, d, q);
    DividedParts(m, y, w, s, d, q);
    SameParts(Div(n, d), x, Div(r, d), Div(m, d), y, Div(s, d), q);
  }

  lemma NumberStep(gs: seq<nat>, i: nat)
    requires |gs| == 8 && i < 8
    ensures Number(gs, i) == gs[i] * Pow2(16 * (7 - i)) + Number(gs, i + 1)
  {
  }

  lemma MaskedStep(g: seq<nat>, b: seq<nat>, i: nat, remaining: nat)
    requires |g| == |b| == 8 && i < 8 && remaining > 16 && g[i] < 0x10000 && b[i] < 0x10000
    ensures MaskedFrom(g, b, i, remaining) <==> g[i] == b[i] && MaskedFrom(g, b, i + 1, remaining - 16)
  {
    assert Pow2(0) == 1;
    hide And, GroupMask, Pow2;
    GroupAgree(g[i], b[i], 16);
  }

  lemma FullGroup(g: seq<nat>, b: seq<nat>, i: nat, remaining: nat)
    requires |g| == |b| == 8 && IsGroups(g) && IsGroups(b) && i < 8 && 16 < remaining <= 16 * (8 - i)
    requires Number(g, i + 1) < Pow2(16 * (7 - i)) && Number(b, i + 1) < Pow2(16 * (7 - i))
    ensures MaskedFrom(g, b, i, remaining) <==>
      Number(g, i) / Pow2(16 * (8 - i) - remaining) == Number(b, i) / Pow2(16 * (8 - i) - remaining)
    decreases 8 - i, 0
  {
    hide Number, MaskedFrom, Pow2, IsGroups, And, GroupMask;
    GroupFits(g, i);
    GroupFits(b, i);
    MaskedStep(g, b, i, remaining);
    MaskedIsPrefix(g, b, i + 1, remaining - 16);
    NumberStep(g, i);
    NumberStep(b, i);
    var d, q, w := Pow2(16 * (8 - i) - remaining), Pow2(remaining - 16), Pow2(16 * (7 - i));
    Pow2Add(16 * (8 - i) - remaining, remaining - 16);
    var n: nat, m: nat := Number(g, i), Number(b, i);
    var r: nat, s: nat := Number(g, i + 1), Number(b, i + 1);
    TwoParts(n, g[i], r, m, b[i], s, w, d, q);
    assert 16 * (8 - (i + 1)) - (remaining - 16) == 16 * (8 - i) - remaining;
  }

  /** An IPv6 address is in a block exactly when the top `bits` of the 128 bits agree. */
  lemma V6Prefix(groups: seq<nat>, base: string, bits: nat)
    requires |groups| == 8 && IsGroups(groups) && bits <= 128
    ensures InV6Cidr(groups, base, bits) <==>
      && Ipv6Groups(base).Some? && |Ipv6Groups(base).value| == 8
      && Number(groups, 0) / Pow2(128 - bits) == Number(Ipv6Groups(base).value, 0) / Pow2(128 - bits)
  {
    hide Ipv6Groups, MaskedFrom, Number, Pow2;
    if Ipv6Groups(base).Some? {
      GroupsAreSmall(base);
      MaskedIsPrefix(groups, Ipv6Groups(base).value, 0, bits);
    }
  }
}
