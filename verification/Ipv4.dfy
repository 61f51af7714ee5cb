/** The dotted-quad parser of src/net/destination-policy.js. */
module Ipv4 {
  import opened Prelude
  import opened Strings

  predicate IsDigit(c: char) {
    '0' <= c <= '9'
  }

  function Digit(c: char): nat
    requires IsDigit(c)
  {
    c as int - '0' as int
  }

  /** One to three digits without a leading zero. */
  predicate IsOctetText(s: string) {
    && 1 <= |s| <= 3 && (forall i :: 0 <= i < |s| ==> IsDigit(s[i])) && (s[0] == '0' ==> |s| == 1)
  }

  function DecimalValue(s: string): nat
    requires IsOctetText(s)
  {
    if |s| == 1 then Digit(s[0])
    else if |s| == 2 then Digit(s[0]) * 10 + Digit(s[1])
    else Digit(s[0]) * 100 + Digit(s[1]) * 10 + Digit(s[2])
  }

  function Octet(s: string): (r: Option<nat>)
    ensures r.Some? ==> r.value < 256
  {
    if IsOctetText(s) && DecimalValue(s) <= 255 then Some(DecimalValue(s)) else None
  }

  function DigitChar(n: nat): char
    requires n < 10
  {
    ('0' as int + n) as char
  }

  function Decimal(n: nat): string
    requires n < 256
  {
    if n < 10 then [DigitChar(n)]
    else if n < 100 then [DigitChar(n / 10), DigitChar(n % 10)]
    else [DigitChar(n / 100), DigitChar(n / 10 % 10), DigitChar(n % 10)]
  }

  lemma DecimalIsOctet(n: nat)
    requires n < 256
    ensures Octet(Decimal(n)) == Some(n)
  {
  }

  lemma OctetIsDecimal(s: string)
    requires IsOctetText(s) && DecimalValue(s) < 256
    ensures s == Decimal(DecimalValue(s))
  {
    if |s| == 1 {
      assert s == [s[0]];
    } else if |s| == 2 {
      assert s == [s[0], s[1]];
    } else {
      assert s == [s[0], s[1], s[2]];
    }
  }

  /** A byte has exactly one accepted decimal text. */
  lemma OctetIffDecimal(s: string, n: nat)
    requires n < 256
    ensures Octet(s) == Some(n) <==> s == Decimal(n)
  {
    DecimalIsOctet(n);
    hide Decimal, DecimalValue, IsOctetText;
    if Octet(s) == Some(n) {
      OctetIsDecimal(s);
    }
  }

  /** The value of the first `n` octets, or none. */
  function OctetsValue(parts: seq<string>, n: nat): (r: Option<nat>)
    requires n <= |parts|
  {
    if n == 0 then Some(0)
    else
      var above := OctetsValue(parts, n - 1);
      if above.None? || Octet(parts[n - 1]).None? then None
      else Some(above.value * 256 + Octet(parts[n - 1]).value)
  }

  function Ipv4Value(ip: string): Option<nat> {
    var parts := Split(ip, '.');
    if |parts| != 4 then None else OctetsValue(parts, 4)
  }

  method Ipv4ToInt(ip: string) returns (r: Option<nat>)
    ensures r == Ipv4Value(ip)
  {
    var parts := Split(ip, '.');
    if |parts| != 4 {
      return None;
    }
    var value := 0;
    for i := 0 to |parts|
      invariant OctetsValue(parts, i) == Some(value)
    {
      NoneStays(parts, i + 1, |parts|);
      if !IsOctetText(parts[i]) {
        return None;
      }
      var n := DecimalValue(parts[i]);
      if n > 255 {
        return None;
      }
      value := value * 256 + n;
    }
    return Some(value);
  }

  lemma {:induction false} NoneStays(parts: seq<string>, m: nat, n: nat)
    requires m <= n <= |parts|
    ensures OctetsValue(parts, m).None? ==> OctetsValue(parts, n).None?
    decreases n
  {
    if m < n {
      NoneStays(parts, m, n - 1);
    }
  }

  function Dotted(a: nat, b: nat, c: nat, d: nat): string
    requires a < 256 && b < 256 && c < 256 && d < 256
  {
    Decimal(a) + "." + Decimal(b) + "." + Decimal(c) + "." + Decimal(d)
  }

  function Join4(p: seq<string>): string
    requires |p| == 4
  {
    p[0] + "." + p[1] + "." + p[2] + "." + p[3]
  }

  lemma JoinFour(p: seq<string>)
    requires |p| == 4
    ensures Join(p, '.') == Join4(p)
  {
    assert p[1..][1..] == p[2..] && p[2..][1..] == p[3..];
    assert Join(p[3..], '.') == p[3];
    assert Join(p[2..], '.') == p[2] + "." + p[3];
    assert Join(p[1..], '.') == p[1] + "." + Join(p[2..], '.');
    assert Join(p, '.') == p[0] + "." + Join(p[1..], '.');
  }

  lemma DecimalPlain(n: nat, c: char)
    requires n < 256 && !IsDigit(c)
    ensures c !in Decimal(n) && Decimal(n) != ""
  {
  }

  lemma DottedParses(a: nat, b: nat, c: nat, d: nat)
    requires a < 256 && b < 256 && c < 256 && d < 256
    ensures Ipv4Value(Dotted(a, b, c, d)) == Some(((a * 256 + b) * 256 + c) * 256 + d)
  {
    var p := [Decimal(a), Decimal(b), Decimal(c), Decimal(d)];
    DecimalPlain(a, '.');
    DecimalPlain(b, '.');
    DecimalPlain(c, '.');
    DecimalPlain(d, '.');
    JoinFour(p);
    SplitJoin(p, '.');
    OctetIffDecimal(p[0], a);
    OctetIffDecimal(p[1], b);
    OctetIffDecimal(p[2], c);
    OctetIffDecimal(p[3], d);
    FourOctets(p, a, b, c, d);
  }

  lemma FourOctets(p: seq<string>, a: nat, b: nat, c: nat, d: nat)
    requires |p| == 4 && Octet(p[0]) == Some(a) && Octet(p[1]) == Some(b) && Octet(p[2]) == Some(c) && Octet(p[3]) == Some(d)
    ensures OctetsValue(p, 4) == Some(((a * 256 + b) * 256 + c) * 256 + d)
  {
    hide Octet;
    assert OctetsValue(p, 0) == Some(0);
    assert OctetsValue(p, 1) == Some(a);
    assert OctetsValue(p, 2) == Some(a * 256 + b);
    assert OctetsValue(p, 3) == Some((a * 256 + b) * 256 + c);
  }

  /** The parser accepts exactly the canonical dotted quads. */
  lemma ParsedIsDotted(ip: string) returns (a: nat, b: nat, c: nat, d: nat)
    requires Ipv4Value(ip).Some?
    ensures a < 256 && b < 256 && c < 256 && d < 256
    ensures ip == Dotted(a, b, c, d) && Ipv4Value(ip) == Some(((a * 256 + b) * 256 + c) * 256 + d)
  {
    var p := Split(ip, '.');
    AllOctets(p);
    a, b, c, d := Octet(p[0]).value, Octet(p[1]).value, Octet(p[2]).value, Octet(p[3]).value;
    OctetIffDecimal(p[0], a);
    OctetIffDecimal(p[1], b);
    OctetIffDecimal(p[2], c);
    OctetIffDecimal(p[3], d);
    JoinSplit(ip, '.');
    JoinFour(p);
    FourOctets(p, a, b, c, d);
  }

  lemma AllOctets(p: seq<string>)
    requires |p| == 4 && OctetsValue(p, 4).Some?
    ensures Octet(p[0]).Some? && Octet(p[1]).Some? && Octet(p[2]).Some? && Octet(p[3]).Some?
  {
    hide Octet;
    NoneStays(p, 1, 4);
    NoneStays(p, 2, 4);
    NoneStays(p, 3, 4);
  }
}
