/**
 The checksum in numbers: what the register of bits computes, as a sixteen-bit
 integer that is doubled and mixed, and the published value of it.
 */
module CrcValues {
  import opened Bytes
  import opened Crc

  /** The bit of that weight turned over. */
  function FlipBit(v: int, weight: int): int
    requires weight > 0
  {
    if v / weight % 2 == 0 then v + weight else v - weight
  }

  /** A number with 0x1021 exclusive-ored in, its lowest bit being clear: the bits both have are lost twice over. */
  function Mixed(v: int): int {
    v + 0x1021 - 2 * ((if v / 0x1000 % 2 == 1 then 0x1000 else 0) + (if v / 0x20 % 2 == 1 then 0x20 else 0))
  }

  /** One bit into the register: doubled, and mixed when the bit differs from the one shifted out at the top. */
  function Feed(crc: int, bit: int): int {
    if crc / 0x8000 == bit then 2 * crc % 0x1_0000 else Mixed(2 * crc % 0x1_0000)
  }

  /** The low `n` bits of `value`, most significant first. */
  function FeedBits(crc: int, value: nat, n: nat): int {
    if n == 0 then crc else Feed(FeedBits(crc, value / 2, n - 1), value % 2)
  }

  function FeedBytes(crc: int, data: seq<byte>): int {
    if data == [] then crc else FeedBits(FeedBytes(crc, data[..|data| - 1]), data[|data| - 1], 8)
  }

  // ---------------------------------------------------------------------------
  // The register's number.

  lemma NumberParts(front: Bits, bit: bool, tail: Bits)
    ensures Number(front + [bit] + tail) == (2 * Number(front) + if bit then 1 else 0) * Pow2(|tail|) + Number(tail)
  {
    NumberConcat(front + [bit], tail);
    NumberSnoc(front, bit);
  }

  lemma FlippedNumber(high: int, bit: int, low: int, weight: int)
    requires 0 <= bit <= 1 && 0 <= low < weight && weight in {0x01, 0x20, 0x1000}
    ensures FlipBit((2 * high + bit) * weight + low, weight) == (2 * high + 1 - bit) * weight + low
  {
    var q := 2 * high + bit;
    assert (q * weight + low) / weight == q by {
      assert weight == 0x01 ==> (q * 0x01 + low) / 0x01 == q;
      assert weight == 0x20 ==> (q * 0x20 + low) / 0x20 == q;
      assert weight == 0x1000 ==> (q * 0x1000 + low) / 0x1000 == q;
    }
    assert q % 2 == bit;
    assert (2 * high + 1 - bit) * weight == q * weight + (1 - 2 * bit) * weight;
  }

  /** Turning a tap of the register over is turning over the bit of its weight. */
  lemma Flipped(r: Reg, i: nat, weight: int)
    requires (i == 3 && weight == 0x1000) || (i == 10 && weight == 0x20) || (i == 15 && weight == 0x01)
    ensures Number(r[i := !r[i]]) == FlipBit(Number(r), weight)
  {
    hide Number, FlipBit;
    var front, bit, tail := r[..i], r[i], r[i + 1..];
    assert r == front + [bit] + tail && r[i := !bit] == front + [!bit] + tail;
    NumberParts(front, bit, tail);
    NumberParts(front, !bit, tail);
    NumberBound(tail);
    assert Pow2(|tail|) == weight by { Weights(); }
    FlippedNumber(Number(front), if bit then 1 else 0, Number(tail), weight);
  }

  lemma Weights()
    ensures Pow2(12) == 0x1000 && Pow2(5) == 0x20 && Pow2(0) == 0x01 && Pow2(15) == 0x8000
  {}

  /** Turning over three bits, the lowest of them clear, is mixing. */
  lemma MixedByFlips(v: int)
    requires 0 <= v < 0x1_0000 && v % 2 == 0
    ensures FlipBit(FlipBit(FlipBit(v, 0x1000), 0x20), 0x01) == Mixed(v)
  {
    var once := FlipBit(v, 0x1000);
    assert once / 0x20 % 2 == v / 0x20 % 2 && once % 2 == 0;
    assert FlipBit(once, 0x20) % 2 == 0;
  }

  /** A division step of the register is a step of its number. */
  lemma DividedNumber(r: Reg, bit: bool)
    ensures Number(Divide(r, bit)) == Feed(Number(r), if bit then 1 else 0)
  {
    hide Number, FlipBit, Mixed;
    var rest := r[1..];
    var shifted := rest + [false];
    assert r == [] + [r[0]] + rest && [] + [r[0]] == [r[0]];
    NumberParts([], r[0], rest);
    NumberSnoc(rest, false);
    NumberBound(rest);
    NumberOfNone();
    Weights();
    Flipped(shifted, 3, 0x1000);
    var once := shifted[3 := !shifted[3]];
    Flipped(once, 10, 0x20);
    Flipped(once[10 := !once[10]], 15, 0x01);
    MixedByFlips(Number(shifted));
  }

  lemma NumberOfNone()
    ensures Number([]) == 0
  {}

  lemma {:induction false} DividedByBits(r: Reg, value: nat, n: nat)
    ensures Number(Remainder(r, BitsOf(value, n))) == FeedBits(Number(r), value, n)
  {
    hide Number, Divide, Feed;
    if n > 0 {
      var front, last := BitsOf(value / 2, n - 1), value % 2 == 1;
      DividedByBits(r, value / 2, n - 1);
      RemainderConcat(r, front, [last]);
      OneBit(Remainder(r, front), last);
      DividedNumber(Remainder(r, front), last);
    }
  }

  lemma {:induction false} DividedByBytes(data: seq<byte>)
    ensures Number(Remainder(INIT, MessageBits(data))) == FeedBytes(0xFFFF, data)
  {
    hide Number, Divide, FeedBits;
    if data == [] {
      AllOnes();
    } else {
      var front, last := data[..|data| - 1], data[|data| - 1];
      DividedByBytes(front);
      assert data == front + [last];
      MessageBitsConcat(front, [last]);
      OneByte(last);
      RemainderConcat(INIT, MessageBits(front), BitsOf(last, 8));
      DividedByBits(Remainder(INIT, MessageBits(front)), last, 8);
    }
  }

  lemma OneByte(value: byte)
    ensures MessageBits([value]) == BitsOf(value, 8)
  {
    assert [value][1..] == [] && BitsOf(value, 8) + [] == BitsOf(value, 8);
  }

  lemma AllOnes()
    ensures Number(INIT) == 0xFFFF
  {
    assert INIT[..4] == [true, true, true, true];
    assert INIT == INIT[..4] + INIT[4..] && INIT[4..] == INIT[..4] + INIT[8..] && INIT[8..] == INIT[..4] + INIT[12..];
    assert INIT[12..] == INIT[..4];
    FourOnes();
    hide Number;
    NumberConcat(INIT[..4], INIT[..4]);
    NumberConcat(INIT[..4], INIT[8..]);
    NumberConcat(INIT[..4], INIT[4..]);
    assert Pow2(4) == 16 && Pow2(8) == 256 && Pow2(12) == 4096 by { Weights(); }
  }

  lemma FourOnes()
    ensures Number([true, true, true, true]) == 15
  {
    assert [true][..0] == [] && [true, true][..1] == [true] && [true, true, true][..2] == [true, true];
    assert [true, true, true, true][..3] == [true, true, true];
  }

  /** The checksum is what a register of sixteen bits that starts at 0xFFFF and is fed each bit comes to. */
  lemma Crc16IsFed(data: seq<byte>)
    ensures Crc16(data) == FeedBytes(0xFFFF, data)
  {
    DividedByBytes(data);
  }

  // ---------------------------------------------------------------------------
  // Published values.

  lemma OfNothing()
    ensures Crc16([]) == 0xFFFF
  {
    Crc16IsFed([]);
    FedNothing();
  }

  lemma FeedLast(crc: int, front: nat, bit: nat, n: nat)
    requires bit < 2
    ensures FeedBits(crc, 2 * front + bit, n + 1) == Feed(FeedBits(crc, front, n), bit)
  {
    hide Feed;
    assert (2 * front + bit) / 2 == front && (2 * front + bit) % 2 == bit;
  }

  lemma FeedFour(crc: int, front: nat, n: nat, a: nat, b: nat, c: nat, d: nat)
    requires a < 2 && b < 2 && c < 2 && d < 2
    ensures FeedBits(crc, 2 * (2 * (2 * (2 * front + a) + b) + c) + d, n + 4)
         == Feed(Feed(Feed(Feed(FeedBits(crc, front, n), a), b), c), d)
  {
    hide Feed, FeedBits;
    FeedLast(crc, front, a, n);
    FeedLast(crc, 2 * front + a, b, n + 1);
    FeedLast(crc, 2 * (2 * front + a) + b, c, n + 2);
    FeedLast(crc, 2 * (2 * (2 * front + a) + b) + c, d, n + 3);
  }

  lemma FeedNone(crc: int)
    ensures FeedBits(crc, 0, 0) == crc
  {}

  lemma High1()
    ensures FeedBits(0xFFFF, 0x3, 4) == 0x3E7C
  {
    assert Feed(0xFFFF, 0) == 0xEFDF && Feed(0xEFDF, 0) == 0xCF9F;
    assert Feed(0xCF9F, 1) == 0x9F3E && Feed(0x9F3E, 1) == 0x3E7C;
    hide Feed, FeedBits;
    FeedNone(0xFFFF);
    FeedFour(0xFFFF, 0, 0, 0, 0, 1, 1);
  }

  lemma Digit1()
    ensures FeedBits(0xFFFF, 0x31, 8) == 0xC782
  {
    assert Feed(0x3E7C, 0) == 0x7CF8 && Feed(0x7CF8, 0) == 0xF9F0;
    assert Feed(0xF9F0, 0) == 0xE3C1 && Feed(0xE3C1, 1) == 0xC782;
    hide Feed, FeedBits;
    High1();
    FeedFour(0xFFFF, 3, 4, 0, 0, 0, 1);
  }

  lemma High2()
    ensures FeedBits(0xC782, 0x3, 4) == 0x89CF
  {
    assert Feed(0xC782, 0) == 0x9F25 && Feed(0x9F25, 0) == 0x2E6B;
    assert Feed(0x2E6B, 1) == 0x4CF7 && Feed(0x4CF7, 1) == 0x89CF;
    hide Feed, FeedBits;
    FeedNone(0xC782);
    FeedFour(0xC782, 0, 0, 0, 0, 1, 1);
  }

  lemma Digit2()
    ensures FeedBits(0xC782, 0x32, 8) == 0x3DBA
  {
    assert Feed(0x89CF, 0) == 0x03BF && Feed(0x03BF, 0) == 0x077E;
    assert Feed(0x077E, 1) == 0x1EDD && Feed(0x1EDD, 0) == 0x3DBA;
    hide Feed, FeedBits;
    High2();
    FeedFour(0xC782, 3, 4, 0, 0, 1, 0);
  }

  lemma High3()
    ensures FeedBits(0x3DBA, 0x3, 4) == 0xDBA0
  {
    assert Feed(0x3DBA, 0) == 0x7B74 && Feed(0x7B74, 0) == 0xF6E8;
    assert Feed(0xF6E8, 1) == 0xEDD0 && Feed(0xEDD0, 1) == 0xDBA0;
    hide Feed, FeedBits;
    FeedNone(0x3DBA);
    FeedFour(0x3DBA, 0, 0, 0, 0, 1, 1);
  }

  lemma Digit3()
    ensures FeedBits(0x3DBA, 0x33, 8) == 0x5BCE
  {
    assert Feed(0xDBA0, 0) == 0xA761 && Feed(0xA761, 0) == 0x5EE3;
    assert Feed(0x5EE3, 1) == 0xADE7 && Feed(0xADE7, 1) == 0x5BCE;
    hide Feed, FeedBits;
    High3();
    FeedFour(0x3DBA, 3, 4, 0, 0, 1, 1);
  }

  lemma High4()
    ensures FeedBits(0x5BCE, 0x3, 4) == 0xDC26
  {
    assert Feed(0x5BCE, 0) == 0xB79C && Feed(0xB79C, 0) == 0x7F19;
    assert Feed(0x7F19, 1) == 0xEE13 && Feed(0xEE13, 1) == 0xDC26;
    hide Feed, FeedBits;
    FeedNone(0x5BCE);
    FeedFour(0x5BCE, 0, 0, 0, 0, 1, 1);
  }

  lemma Digit4()
    ensures FeedBits(0x5BCE, 0x34, 8) == 0x5349
  {
    assert Feed(0xDC26, 0) == 0xA86D && Feed(0xA86D, 1) == 0x50DA;
    assert Feed(0x50DA, 0) == 0xA1B4 && Feed(0xA1B4, 0) == 0x5349;
    hide Feed, FeedBits;
    High4();
    FeedFour(0x5BCE, 3, 4, 0, 1, 0, 0);
  }

  lemma High5()
    ensures FeedBits(0x5349, 0x3, 4) == 0x5456
  {
    assert Feed(0x5349, 0) == 0xA692 && Feed(0xA692, 0) == 0x5D05;
    assert Feed(0x5D05, 1) == 0xAA2B && Feed(0xAA2B, 1) == 0x5456;
    hide Feed, FeedBits;
    FeedNone(0x5349);
    FeedFour(0x5349, 0, 0, 0, 0, 1, 1);
  }

  lemma Digit5()
    ensures FeedBits(0x5349, 0x35, 8) == 0x4560
  {
    assert Feed(0x5456, 0) == 0xA8AC && Feed(0xA8AC, 1) == 0x5158;
    assert Feed(0x5158, 0) == 0xA2B0 && Feed(0xA2B0, 1) == 0x4560;
    hide Feed, FeedBits;
    High5();
    FeedFour(0x5349, 3, 4, 0, 1, 0, 1);
  }

  lemma High6()
    ensures FeedBits(0x4560, 0x3, 4) == 0x26E7
  {
    assert Feed(0x4560, 0) == 0x8AC0 && Feed(0x8AC0, 0) == 0x05A1;
    assert Feed(0x05A1, 1) == 0x1B63 && Feed(0x1B63, 1) == 0x26E7;
    hide Feed, FeedBits;
    FeedNone(0x4560);
    FeedFour(0x4560, 0, 0, 0, 0, 1, 1);
  }

  lemma Digit6()
    ensures FeedBits(0x4560, 0x36, 8) == 0x2EF4
  {
    assert Feed(0x26E7, 0) == 0x4DCE && Feed(0x4DCE, 1) == 0x8BBD;
    assert Feed(0x8BBD, 1) == 0x177A && Feed(0x177A, 0) == 0x2EF4;
    hide Feed, FeedBits;
    High6();
    FeedFour(0x4560, 3, 4, 0, 1, 1, 0);
  }

  lemma High7()
    ensures FeedBits(0x2EF4, 0x3, 4) == 0xFF61
  {
    assert Feed(0x2EF4, 0) == 0x5DE8 && Feed(0x5DE8, 0) == 0xBBD0;
    assert Feed(0xBBD0, 1) == 0x77A0 && Feed(0x77A0, 1) == 0xFF61;
    hide Feed, FeedBits;
    FeedNone(0x2EF4);
    FeedFour(0x2EF4, 0, 0, 0, 0, 1, 1);
  }

  lemma Digit7()
    ensures FeedBits(0x2EF4, 0x37, 8) == 0x7718
  {
    assert Feed(0xFF61, 0) == 0xEEE3 && Feed(0xEEE3, 1) == 0xDDC6;
    assert Feed(0xDDC6, 1) == 0xBB8C && Feed(0xBB8C, 1) == 0x7718;
    hide Feed, FeedBits;
    High7();
    FeedFour(0x2EF4, 3, 4, 0, 1, 1, 1);
  }

  lemma High8()
    ensures FeedBits(0x7718, 0x3, 4) == 0x3104
  {
    assert Feed(0x7718, 0) == 0xEE30 && Feed(0xEE30, 0) == 0xCC41;
    assert Feed(0xCC41, 1) == 0x9882 && Feed(0x9882, 1) == 0x3104;
    hide Feed, FeedBits;
    FeedNone(0x7718);
    FeedFour(0x7718, 0, 0, 0, 0, 1, 1);
  }

  lemma Digit8()
    ensures FeedBits(0x7718, 0x38, 8) == 0xA12B
  {
    assert Feed(0x3104, 1) == 0x7229 && Feed(0x7229, 0) == 0xE452;
    assert Feed(0xE452, 0) == 0xD885 && Feed(0xD885, 0) == 0xA12B;
    hide Feed, FeedBits;
    High8();
    FeedFour(0x7718, 3, 4, 1, 0, 0, 0);
  }

  lemma High9()
    ensures FeedBits(0xA12B, 0x3, 4) == 0x8399
  {
    assert Feed(0xA12B, 0) == 0x5277 && Feed(0x5277, 0) == 0xA4EE;
    assert Feed(0xA4EE, 1) == 0x49DC && Feed(0x49DC, 1) == 0x8399;
    hide Feed, FeedBits;
    FeedNone(0xA12B);
    FeedFour(0xA12B, 0, 0, 0, 0, 1, 1);
  }

  lemma Digit9()
    ensures FeedBits(0xA12B, 0x39, 8) == 0x29B1
  {
    assert Feed(0x8399, 1) == 0x0732 && Feed(0x0732, 0) == 0x0E64;
    assert Feed(0x0E64, 0) == 0x1CC8 && Feed(0x1CC8, 1) == 0x29B1;
    hide Feed, FeedBits;
    High9();
    FeedFour(0xA12B, 3, 4, 1, 0, 0, 1);
  }

  const DIGITS: seq<byte> := [0x31, 0x32, 0x33, 0x34, 0x35, 0x36, 0x37, 0x38, 0x39]

  lemma OneDigitMore(n: nat)
    requires n < 9
    ensures FeedBytes(0xFFFF, DIGITS[..n + 1]) == FeedBits(FeedBytes(0xFFFF, DIGITS[..n]), 0x31 + n, 8)
  {
    hide FeedBits;
    assert DIGITS[..n + 1][..n] == DIGITS[..n];
  }

  /** The check value: the digits 1 to 9 in ASCII come to 0x29B1. */
  lemma CheckValue()
    ensures Crc16(DIGITS) == 0x29B1
  {
    hide FeedBits, Feed, Crc16, FeedBytes;
    Crc16IsFed(DIGITS);
    FedNothing();
    assert DIGITS[..0] == [] && DIGITS[..9] == DIGITS;
    Digit1(); Digit2(); Digit3(); Digit4(); Digit5(); Digit6(); Digit7(); Digit8(); Digit9();
    OneDigitMore(0); OneDigitMore(1); OneDigitMore(2); OneDigitMore(3); OneDigitMore(4);
    OneDigitMore(5); OneDigitMore(6); OneDigitMore(7); OneDigitMore(8);
  }

  lemma FedNothing()
    ensures FeedBytes(0xFFFF, []) == 0xFFFF
  {}
}
