/** The chunk checksum of src/image/png.js: the table-driven CRC against the bit-serial one.
    A word is its bits, least significant first; a shift to the right drops the first bit. */
module Crc {
  import opened Prelude
  import opened Bitwise

  type Word = w: seq<bool> | |w| == 32 witness seq(32, _ => false)

  function Zeros(n: nat): (z: seq<bool>)
    ensures |z| == n && forall i :: 0 <= i < n ==> !z[i]
  {
    seq(n, _ => false)
  }

  function Xor(x: Word, y: Word): (z: Word)
    ensures forall i :: 0 <= i < 32 ==> z[i] == (x[i] != y[i])
  {
    seq(32, i requires 0 <= i < 32 => x[i] != y[i])
  }

  function ShiftRight(x: Word, n: nat): Word
    requires n <= 32
  {
    x[n..] + Zeros(n)
  }

  /** The low `n` bits of a number. */
  function ToBits(x: nat, n: nat): (w: seq<bool>)
    ensures |w| == n
  {
    if n == 0 then [] else [x % 2 == 1] + ToBits(x / 2, n - 1)
  }

  function FromBits(w: seq<bool>): nat {
    if w == [] then 0 else 2 * FromBits(w[1..]) + (if w[0] then 1 else 0)
  }

  const POLYNOMIAL: Word := ToBits(0xedb88320, 32)
  const ONES: Word := ToBits(0xffffffff, 32)

  // ---- the bit-serial register of section 3.4 of RFC 2083 -----------------------------------

  /** Shifts one message bit into the register. */
  function Feed(c: Word, bit: bool): Word {
    if c[0] != bit then Xor(ShiftRight(c, 1), POLYNOMIAL) else ShiftRight(c, 1)
  }

  function FeedBits(c: Word, bits: seq<bool>): Word
    decreases |bits|
  {
    if bits == [] then c else FeedBits(Feed(c, bits[0]), bits[1..])
  }

  /** The bits of a buffer in transmission order: byte by byte, least significant bit first. */
  function MessageBits(buf: seq<byte>): seq<bool> {
    if buf == [] then [] else ToBits(buf[0], 8) + MessageBits(buf[1..])
  }

  /** The checksum a chunk carries, defined bit by bit. */
  function Crc32Of(buf: seq<byte>): u32 {
    var c := Xor(FeedBits(ONES, MessageBits(buf)), ONES);
    WordValue(c);
    FromBits(c)
  }

  // ---- the byte-at-a-time form --------------------------------------------------------------

  /** One turn of the inner loop that fills the table. */
  function Step(c: Word): Word {
    if c[0] then Xor(POLYNOMIAL, ShiftRight(c, 1)) else ShiftRight(c, 1)
  }

  function Steps(c: Word, n: nat): Word
    decreases n
  {
    if n == 0 then c else Steps(Step(c), n - 1)
  }

  function TableEntry(n: nat): Word {
    Steps(ToBits(n, 32), 8)
  }

  ghost predicate IsCrcTable(table: array<Word>)
    reads table
  {
    table.Length == 256 && forall n: nat :: n < 256 ==> table[n] == TableEntry(n)
  }

  method BuildTable() returns (table: array<Word>)
    ensures fresh(table) && IsCrcTable(table)
  {
    hide TableEntry;
    table := new Word[256](_ => Zeros(32));
    for n := 0 to 256
      invariant forall m: nat :: m < n ==> table[m] == TableEntry(m)
    {
      var c := Entry(n);
      table[n] := c;
    }
  }

  method Entry(n: nat) returns (c: Word)
    ensures c == TableEntry(n)
  {
    hide ToBits, Xor, ShiftRight, Steps;
    c := ToBits(n, 32);
    ghost var entry := Steps(c, 8);
    assert TableEntry(n) == entry;
    for k := 0 to 8
      invariant Steps(c, 8 - k) == entry
    {
      NextStep(c, 8 - k);
      c := if c[0] then Xor(POLYNOMIAL, ShiftRight(c, 1)) else ShiftRight(c, 1);
    }
    NextStep(c, 0);
  }

  lemma NextStep(c: Word, n: nat)
    ensures Steps(c, n) == if n == 0 then c else Steps(Step(c), n - 1)
  {
    hide Step;
  }

  method Crc32(table: array<Word>, buf: seq<byte>) returns (crc: u32)
    requires IsCrcTable(table)
    ensures crc == Crc32Of(buf)
  {
    var c := ONES;
    for i := 0 to |buf|
      invariant FeedBits(ONES, MessageBits(buf)) == FeedBits(c, MessageBits(buf[i..]))
    {
      assert buf[i..][1..] == buf[i + 1..];
      NextByte(c, buf[i], MessageBits(buf[i + 1..]));
      c := Xor(table[FromBits(Xor(c, ToBits(buf[i], 32))[..8])], ShiftRight(c, 8));
    }
    WordValue(Xor(c, ONES));
    crc := FromBits(Xor(c, ONES));
  }

  // ---- why the two agree --------------------------------------------------------------------

  /** The step is linear over exclusive or, and so is any number of steps. */
  lemma StepLinear(x: Word, y: Word)
    ensures Step(Xor(x, y)) == Xor(Step(x), Step(y))
  {
  }

  lemma {:induction false} StepsLinear(x: Word, y: Word, n: nat)
    ensures Steps(Xor(x, y), n) == Xor(Steps(x, n), Steps(y, n))
    decreases n
  {
    if n > 0 {
      StepLinear(x, y);
      StepsLinear(Step(x), Step(y), n - 1);
    }
  }

  /** Clear low bits only move: no feedback. */
  lemma {:induction false} StepsShiftOut(x: Word, n: nat)
    requires n <= 32 && forall i :: 0 <= i < n ==> !x[i]
    ensures Steps(x, n) == ShiftRight(x, n)
    decreases n
  {
    if n > 0 {
      var x' := Step(x);
      assert x' == ShiftRight(x, 1);
      StepsShiftOut(x', n - 1);
    }
  }

  /** Eight steps of the register: a look-up on the low byte, over the register shifted by a byte. */
  lemma TableStep(x: Word)
    ensures Steps(x, 8) == Xor(Steps(x[..8] + Zeros(24), 8), ShiftRight(x, 8))
  {
    var low: Word, high: Word := x[..8] + Zeros(24), Zeros(8) + x[8..];
    assert x == Xor(low, high);
    StepsLinear(low, high, 8);
    StepsShiftOut(high, 8);
  }

  lemma FeedIsStep(c: Word, x: Word)
    ensures Step(Xor(c, x)) == Xor(Feed(c, x[0]), ShiftRight(x, 1))
  {
  }

  /** Feeding bits one at a time, or all at once and then stepping. */
  lemma {:induction false} FeedIsSteps(c: Word, x: Word, n: nat)
    requires n <= 32 && forall i :: n <= i < 32 ==> !x[i]
    ensures FeedBits(c, x[..n]) == Steps(Xor(c, x), n)
    decreases n
  {
    if n == 0 {
      assert Xor(c, x) == c;
    } else {
      var x' := ShiftRight(x, 1);
      FeedIsStep(c, x);
      FeedIsSteps(Feed(c, x[0]), x', n - 1);
      assert x[..n][1..] == x'[..n - 1];
    }
  }

  lemma {:induction false} FeedConcat(c: Word, bits: seq<bool>, more: seq<bool>)
    ensures FeedBits(c, bits + more) == FeedBits(FeedBits(c, bits), more)
    decreases |bits|
  {
    if bits == [] {
      assert bits + more == more;
    } else {
      FeedConcat(Feed(c, bits[0]), bits[1..], more);
      assert (bits + more)[1..] == bits[1..] + more;
    }
  }

  /** One turn of the checksum loop feeds the eight bits of one byte. */
  lemma NextByte(c: Word, b: byte, more: seq<bool>)
    ensures var n := FromBits(Xor(c, ToBits(b, 32))[..8]);
      n < 256 && FeedBits(c, ToBits(b, 8) + more) == FeedBits(Xor(Steps(ToBits(n, 32), 8), ShiftRight(c, 8)), more)
  {
    var w: Word := ToBits(b, 32);
    var x := Xor(c, w);
    assert w == ToBits(b, 8) + Zeros(24) by { Padded(b, 8, 32); }
    FeedConcat(c, ToBits(b, 8), more);
    assert w[..8] == ToBits(b, 8);
    FeedIsSteps(c, w, 8);
    TableStep(x);
    assert ShiftRight(x, 8) == ShiftRight(c, 8);
    ByteRoundTrip(x[..8]);
  }

  lemma ByteRoundTrip(bits: seq<bool>)
    requires |bits| == 8
    ensures FromBits(bits) < 256 && ToBits(FromBits(bits), 32) == bits + Zeros(24)
  {
    BitsRoundTrip(bits);
    assert Pow2(8) == 256;
    Padded(FromBits(bits), 8, 32);
  }

  /** A number that fits in `n` bits has zeros above them. */
  lemma {:induction false} Padded(x: nat, n: nat, m: nat)
    requires n <= m && x < Pow2(n)
    ensures ToBits(x, m) == ToBits(x, n) + Zeros(m - n)
  {
    if m > 0 {
      if n == 0 {
        Padded(0, 0, m - 1);
      } else {
        Padded(x / 2, n - 1, m - 1);
      }
    }
  }

  lemma {:induction false} BitsRoundTrip(w: seq<bool>)
    ensures FromBits(w) < Pow2(|w|) && ToBits(FromBits(w), |w|) == w
  {
    if w != [] {
      BitsRoundTrip(w[1..]);
      assert w == [w[0]] + w[1..];
    }
  }

  lemma WordValue(w: Word)
    ensures FromBits(w) < 0x1_0000_0000
  {
    BitsRoundTrip(w);
    Pow2At32();
  }

  // ---- the polynomial -----------------------------------------------------------------------

  /** The powers of x, below 32, in the polynomial of section 3.4 of RFC 2083. */
  predicate IsTerm(power: nat) {
    match power
    case 26 | 23 | 22 | 16 | 12 | 11 | 10 | 8 | 7 | 5 | 4 | 2 | 1 | 0 => true
    case _ => false
  }

  function Bit(b: bool): nat {
    if b then 1 else 0
  }

  lemma FourBits(w: seq<bool>)
    requires |w| >= 4
    ensures FromBits(w) == Bit(w[0]) + 2 * Bit(w[1]) + 4 * Bit(w[2]) + 8 * Bit(w[3]) + 16 * FromBits(w[4..])
  {
    assert w[1..][1..] == w[2..] && w[2..][1..] == w[3..] && w[3..][1..] == w[4..];
    assert FromBits(w[1..]) == Bit(w[1]) + 2 * FromBits(w[2..]);
    assert FromBits(w[2..]) == Bit(w[2]) + 2 * FromBits(w[3..]);
    assert FromBits(w[3..]) == Bit(w[3]) + 2 * FromBits(w[4..]);
  }

  /** The value of four bits, least significant first, from the word's position `i` on. */
  function Digit(w: Word, i: nat): nat
    requires i + 4 <= 32
  {
    Bit(w[i]) + 2 * Bit(w[i + 1]) + 4 * Bit(w[i + 2]) + 8 * Bit(w[i + 3])
  }

  lemma NextDigit(w: Word, i: nat)
    requires i + 4 <= 32
    ensures FromBits(w[i..]) == Digit(w, i) + 16 * FromBits(w[i + 4..])
  {
    hide FromBits;
    FourBits(w[i..]);
    assert w[i..][4..] == w[i + 4..];
  }

  lemma HexValue(w: Word)
    ensures FromBits(w) == Digit(w, 0) + 0x10 * Digit(w, 4) + 0x100 * Digit(w, 8) + 0x1000 * Digit(w, 12)
                         + 0x1_0000 * Digit(w, 16) + 0x10_0000 * Digit(w, 20) + 0x100_0000 * Digit(w, 24)
                         + 0x1000_0000 * Digit(w, 28)
  {
    hide Digit;
    assert w[0..] == w && FromBits(w[32..]) == 0;
    NextDigit(w, 0);
    NextDigit(w, 4);
    NextDigit(w, 8);
    NextDigit(w, 12);
    NextDigit(w, 16);
    NextDigit(w, 20);
    NextDigit(w, 24);
    NextDigit(w, 28);
  }

  ghost function Terms(): Word {
    seq(32, i requires 0 <= i < 32 => IsTerm(31 - i))
  }

  lemma LowTerms()
    ensures Digit(Terms(), 0) == 0x0 && Digit(Terms(), 4) == 0x2 && Digit(Terms(), 8) == 0x3 && Digit(Terms(), 12) == 0x8
  {
  }

  lemma HighTerms()
    ensures Digit(Terms(), 16) == 0x8 && Digit(Terms(), 20) == 0xb && Digit(Terms(), 24) == 0xd && Digit(Terms(), 28) == 0xe
  {
  }

  lemma TermsValue()
    ensures FromBits(Terms()) == 0xedb88320
  {
    hide FromBits, Digit, Terms;
    LowTerms();
    HighTerms();
    HexValue(Terms());
  }

  /** The register holds the polynomial with the highest power first. */
  lemma PolynomialTerms(i: nat)
    requires i < 32
    ensures POLYNOMIAL[i] <==> IsTerm(31 - i)
  {
    hide ToBits, FromBits, IsTerm;
    TermsValue();
    BitsRoundTrip(Terms());
  }

  /** It starts as ones, and the checksum is its complement. */
  lemma OnesAreOnes(i: nat)
    requires i < 32
    ensures ONES[i]
  {
    hide ToBits, FromBits;
    var ones: Word := seq(32, _ => true);
    HexValue(ones);
    BitsRoundTrip(ones);
  }
}
