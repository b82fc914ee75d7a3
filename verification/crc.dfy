/**
 CRC-16/CCITT-FALSE. The sixteen-bit register is a sequence of bits, most
 significant first, so that the register step can be reasoned about bit by bit.
 */
module Crc {
  import opened Bytes

  type Bits = seq<bool>

  type Reg = r: Bits | |r| == 16 witness
    [false, false, false, false, false, false, false, false, false, false, false, false, false, false, false, false]

  const INIT: Reg := [true, true, true, true, true, true, true, true, true, true, true, true, true, true, true, true]

  const ZERO: Reg :=
    [false, false, false, false, false, false, false, false, false, false, false, false, false, false, false, false]

  /** Exclusive or with x^12 + x^5 + 1, whose ones stand at positions 3, 10 and 15 of the register. */
  function MixPoly(r: Reg): Reg {
    r[3 := !r[3]][10 := !r[10]][15 := !r[15]]
  }

  // ---------------------------------------------------------------------------
  // The specification: long division of a string of bits by the polynomial.

  /** One bit of the dividend enters; the bit it meets at the top decides the feedback. */
  function Divide(r: Reg, bit: bool): Reg {
    var shifted := r[1..] + [false];
    if r[0] == bit then shifted else MixPoly(shifted)
  }

  function Remainder(r: Reg, bits: Bits): Reg
    decreases |bits|
  {
    if bits == [] then r else Remainder(Divide(r, bits[0]), bits[1..])
  }

  /** The low `n` bits of `v`, most significant first. */
  function BitsOf(v: nat, n: nat): (bits: Bits)
    ensures |bits| == n
  {
    if n == 0 then [] else BitsOf(v / 2, n - 1) + [v % 2 == 1]
  }

  function MessageBits(data: seq<byte>): (bits: Bits)
    ensures |bits| == 8 * |data|
  {
    if data == [] then [] else BitsOf(data[0], 8) + MessageBits(data[1..])
  }

  function Number(bits: Bits): nat {
    if bits == [] then 0
    else 2 * Number(bits[..|bits| - 1]) + (if bits[|bits| - 1] then 1 else 0)
  }

  function Pow2(n: nat): nat { if n == 0 then 1 else 2 * Pow2(n - 1) }

  lemma {:induction false} NumberBound(bits: Bits)
    ensures Number(bits) < Pow2(|bits|)
  {
    if bits != [] { NumberBound(bits[..|bits| - 1]); }
  }

  lemma Pow2Octets()
    ensures Pow2(8) == 256 && Pow2(16) == 0x1_0000
  {
    assert Pow2(4) == 16;
    assert Pow2(8) == 256;
    assert Pow2(12) == 4096;
  }

  /** The number a register spells. */
  function Value(r: Reg): u16 {
    NumberBound(r);
    Pow2Octets();
    Number(r)
  }

  /** The checksum of a message: the remainder of its bits, read as a number. */
  function Crc16(data: seq<byte>): u16 { Value(Remainder(INIT, MessageBits(data))) }

  // ---------------------------------------------------------------------------
  // The loops: folding a byte in and shifting, shown to be division by the polynomial.

  /** `r` with `bits` exclusive-ored into its top. */
  function Folded(r: Reg, bits: Bits): (f: Reg)
    requires |bits| <= 16
    ensures forall i :: 0 <= i < 16 ==> f[i] == (if i < |bits| then r[i] != bits[i] else r[i])
    decreases |bits|
  {
    if bits == [] then r
    else
      var n := |bits| - 1;
      Folded(r, bits[..n])[n := r[n] != bits[n]]
  }

  function Shift(r: Reg): Reg {
    var shifted := r[1..] + [false];
    if !r[0] then shifted else MixPoly(shifted)
  }

  /** The register position by position: what shifts in from below, and the feedback taps. */
  lemma DivideAt(r: Reg, bit: bool, i: nat)
    requires i < 16
    ensures Divide(r, bit)[i] == ((i < 15 && r[i + 1]) != (r[0] != bit && (i == 3 || i == 10 || i == 15)))
  {}

  lemma ShiftAt(r: Reg, i: nat)
    requires i < 16
    ensures Shift(r)[i] == ((i < 15 && r[i + 1]) != (r[0] && (i == 3 || i == 10 || i == 15)))
  {}

  /** Shifting with a bit already folded in is the division step by that bit. */
  lemma ShiftFolded(r: Reg, bits: Bits)
    requires 0 < |bits| <= 8
    ensures Shift(Folded(r, bits)) == Folded(Divide(r, bits[0]), bits[1..])
  {
    hide Shift, Divide, Folded;
    var f, d := Folded(r, bits), Divide(r, bits[0]);
    var g := Folded(d, bits[1..]);
    forall i | 0 <= i < 16 ensures Shift(f)[i] == g[i] {
      ShiftAt(f, i);
      DivideAt(r, bits[0], i);
      if i < |bits| - 1 { assert bits[1..][i] == bits[i + 1]; }
    }
  }

  lemma {:induction false} RemainderConcat(r: Reg, a: Bits, b: Bits)
    ensures Remainder(r, a + b) == Remainder(Remainder(r, a), b)
    decreases |a|
  {
    if a == [] {
      assert a + b == b;
    } else {
      assert (a + b)[1..] == a[1..] + b;
      RemainderConcat(Divide(r, a[0]), a[1..], b);
    }
  }

  lemma {:induction false} MessageBitsConcat(a: seq<byte>, b: seq<byte>)
    ensures MessageBits(a + b) == MessageBits(a) + MessageBits(b)
  {
    if a == [] {
      assert a + b == b;
    } else {
      assert (a + b)[1..] == a[1..] + b;
      MessageBitsConcat(a[1..], b);
    }
  }

  /** The bitwise loops of the implementation compute the division. */
  method ComputeCrc16(data: seq<byte>) returns (crc: u16)
    ensures crc == Crc16(data)
  {
    var register := INIT;
    var rest := data;
    while rest != []
      invariant Remainder(register, MessageBits(rest)) == Remainder(INIT, MessageBits(data))
      decreases |rest|
    {
      ghost var bits := BitsOf(rest[0], 8);
      ghost var divided := register;
      RemainderConcat(register, bits, MessageBits(rest[1..]));
      ghost var goal := Remainder(register, bits);
      register := Folded(register, BitsOf(rest[0], 8));
      var bit := 0;
      while bit < 8
        invariant 0 <= bit <= 8
        invariant register == Folded(divided, bits[bit..])
        invariant Remainder(divided, bits[bit..]) == goal
      {
        ShiftFolded(divided, bits[bit..]);
        assert bits[bit..][1..] == bits[bit + 1..];
        divided := Divide(divided, bits[bit]);
        register := Shift(register);
        bit := bit + 1;
      }
      rest := rest[1..];
    }
    crc := Value(register);
  }

  // ---------------------------------------------------------------------------
  // What the checksum promises.

  lemma {:induction false} BitsOfNumber(bits: Bits)
    ensures BitsOf(Number(bits), |bits|) == bits
  {
    if bits != [] { BitsOfNumber(bits[..|bits| - 1]); }
  }

  lemma {:induction false} NumberBitsOf(v: nat, n: nat)
    requires v < Pow2(n)
    ensures Number(BitsOf(v, n)) == v
  {
    if n > 0 {
      NumberBitsOf(v / 2, n - 1);
      assert BitsOf(v, n)[..n - 1] == BitsOf(v / 2, n - 1);
    }
  }

  lemma Doubled(k: nat, p: nat)
    ensures k * (2 * p) == 2 * (k * p)
  {}

  lemma NumberSnoc(bits: Bits, last: bool)
    ensures Number(bits + [last]) == 2 * Number(bits) + (if last then 1 else 0)
  {
    assert (bits + [last])[..|bits|] == bits;
  }

  lemma {:induction false} NumberConcat(a: Bits, b: Bits)
    ensures Number(a + b) == Number(a) * Pow2(|b|) + Number(b)
  {
    if b == [] {
      assert a + b == a;
    } else {
      hide Number;
      var front, last := b[..|b| - 1], b[|b| - 1];
      NumberConcat(a, front);
      NumberSnoc(a + front, last);
      NumberSnoc(front, last);
      assert a + b == a + front + [last] && b == front + [last];
      Doubled(Number(a), Pow2(|front|));
    }
  }

  lemma MessageBitsPair(hi: byte, lo: byte)
    ensures MessageBits([hi, lo]) == BitsOf(hi, 8) + BitsOf(lo, 8)
  {
    assert [hi, lo][1..] == [lo] && [lo][1..] == [];
    assert BitsOf(lo, 8) + [] == BitsOf(lo, 8);
  }

  lemma Halves(hi: nat, lo: nat)
    requires lo < 256
    ensures (hi * 256 + lo) / 256 == hi && (hi * 256 + lo) % 256 == lo
  {}

  lemma NumberHalves(hi: Bits, lo: Bits)
    requires |hi| == |lo| == 8
    ensures Number(hi) < 256 && Number(lo) < 256
    ensures Number(hi + lo) / 256 == Number(hi) && Number(hi + lo) % 256 == Number(lo)
  {
    NumberConcat(hi, lo);
    NumberBound(hi);
    NumberBound(lo);
    Pow2Octets();
    Halves(Number(hi), Number(lo));
  }

  function HighFirst(v: u16): seq<byte> { [v / 256, v % 256] }

  /** A register is recovered from its two bytes, high byte first. */
  lemma ValueBytes(r: Reg)
    ensures MessageBits(HighFirst(Value(r))) == r
  {
    var hi, lo := r[..8], r[8..];
    assert r == hi + lo;
    NumberHalves(hi, lo);
    BitsOfNumber(hi);
    BitsOfNumber(lo);
    MessageBitsPair(Number(hi), Number(lo));
  }

  lemma ValueInjective(r: Reg, s: Reg)
    requires Value(r) == Value(s)
    ensures r == s
  {
    ValueBytes(r);
    ValueBytes(s);
  }

  lemma DivideInjective(r: Reg, s: Reg, bit: bool)
    requires Divide(r, bit) == Divide(s, bit)
    ensures r == s
  {
    assert Divide(r, bit)[15] == (r[0] != bit) && Divide(s, bit)[15] == (s[0] != bit);
    forall i | 0 < i < 16 ensures r[i] == s[i] {
      assert Divide(r, bit)[i - 1] == Divide(s, bit)[i - 1];
    }
  }

  lemma {:induction false} RemainderInjective(r: Reg, s: Reg, bits: Bits)
    requires Remainder(r, bits) == Remainder(s, bits)
    ensures r == s
    decreases |bits|
  {
    if bits != [] {
      RemainderInjective(Divide(r, bits[0]), Divide(s, bits[0]), bits[1..]);
      DivideInjective(r, s, bits[0]);
    }
  }

  /**
   Two registers that differ among their lowest `k` positions stay apart while
   up to `16 - k` bits, any bits, are divided into each: a difference moves up
   one position a step, or the feedback puts a fresh one at the bottom.
   */
  lemma {:induction false} StayApart(r: Reg, s: Reg, x: Bits, y: Bits, k: nat, i: nat)
    requires |x| == |y| && k + |x| <= 16 && 16 - k <= i < 16 && r[i] != s[i]
    ensures Remainder(r, x) != Remainder(s, y)
    decreases |x|
  {
    if x != [] {
      var rNext, sNext := Divide(r, x[0]), Divide(s, y[0]);
      assert rNext[15] == (r[0] != x[0]) && sNext[15] == (s[0] != y[0]);
      if rNext[15] != sNext[15] {
        StayApart(rNext, sNext, x[1..], y[1..], 1, 15);
      } else {
        assert rNext[i - 1] != sNext[i - 1];
        StayApart(rNext, sNext, x[1..], y[1..], k + 1, i - 1);
      }
    }
  }

  lemma {:induction false} WindowApart(r: Reg, x: Bits, y: Bits)
    requires |x| == |y| <= 16 && x != y
    ensures Remainder(r, x) != Remainder(r, y)
    decreases |x|
  {
    if x[0] == y[0] {
      WindowApart(Divide(r, x[0]), x[1..], y[1..]);
    } else {
      StayApart(Divide(r, x[0]), Divide(r, y[0]), x[1..], y[1..], 1, 15);
    }
  }

  lemma {:induction false} MessageBitsInjective(a: seq<byte>, b: seq<byte>)
    requires |a| == |b| && MessageBits(a) == MessageBits(b)
    ensures a == b
  {
    if a != [] {
      assert BitsOf(a[0], 8) == MessageBits(a)[..8] == MessageBits(b)[..8] == BitsOf(b[0], 8);
      assert MessageBits(a[1..]) == MessageBits(a)[8..] == MessageBits(b)[8..] == MessageBits(b[1..]);
      Pow2Octets();
      NumberBitsOf(a[0], 8);
      NumberBitsOf(b[0], 8);
      MessageBitsInjective(a[1..], b[1..]);
    }
  }

  lemma WindowSeparates(r: Reg, head: Bits, x: Bits, y: Bits, tail: Bits)
    requires |x| == |y| <= 16 && x != y
    ensures Remainder(r, head + (x + tail)) != Remainder(r, head + (y + tail))
  {
    var s := Remainder(r, head);
    RemainderConcat(r, head, x + tail);
    RemainderConcat(r, head, y + tail);
    RemainderConcat(s, x, tail);
    RemainderConcat(s, y, tail);
    WindowApart(s, x, y);
    if Remainder(Remainder(s, x), tail) == Remainder(Remainder(s, y), tail) {
      RemainderInjective(Remainder(s, x), Remainder(s, y), tail);
    }
  }

  predicate SameOutside(p: Bits, q: Bits, from: nat)
    requires |p| == |q|
  {
    forall i :: 0 <= i < |p| && !(from <= i < from + 16) ==> p[i] == q[i]
  }

  /** Sixteen bits from `from` on, or as many as there are. */
  function WindowEnd(p: Bits, from: nat): (to: nat)
    requires from <= |p|
    ensures from <= to <= |p| && to <= from + 16
  {
    if from + 16 < |p| then from + 16 else |p|
  }

  lemma SplitWindow(p: Bits, q: Bits, from: nat)
    requires |p| == |q| && from <= |p| && SameOutside(p, q, from)
    ensures var to := WindowEnd(p, from);
            && p == p[..from] + (p[from..to] + p[to..])
            && q == p[..from] + (q[from..to] + p[to..])
  {}

  /**
   Two different messages of one length whose bits differ only inside a window
   of sixteen, wherever the window starts, never share a checksum. Corruption
   confined to two adjacent bytes is one such window.
   */
  lemma BurstDetected(a: seq<byte>, b: seq<byte>, from: nat)
    requires |a| == |b| && a != b && SameOutside(MessageBits(a), MessageBits(b), from)
    ensures Crc16(a) != Crc16(b)
  {
    var p, q := MessageBits(a), MessageBits(b);
    if p == q { MessageBitsInjective(a, b); }
    assert from < |p|;
    var to := WindowEnd(p, from);
    SplitWindow(p, q, from);
    WindowSeparates(INIT, p[..from], p[from..to], q[from..to], p[to..]);
    if Crc16(a) == Crc16(b) { ValueInjective(Remainder(INIT, p), Remainder(INIT, q)); }
  }

  /** Dividing a register by its own leading bits shifts it out and feeds nothing back. */
  lemma {:induction false} ShiftOut(r: Reg, n: nat)
    requires n <= 16
    ensures Remainder(r, r[..n]) == r[n..] + ZERO[..n]
  {
    hide Divide, Remainder;
    RemainderOfNone(r);
    if n > 0 {
      ShiftOut(r, n - 1);
      var s := Remainder(r, r[..n - 1]);
      assert r[..n] == r[..n - 1] + [r[n - 1]];
      RemainderConcat(r, r[..n - 1], [r[n - 1]]);
      OneBit(s, r[n - 1]);
      ShiftedOn(r, n - 1, s);
    } else {
      assert r[..0] == [] && r[0..] + ZERO[..0] == r;
    }
  }

  lemma RemainderOfNone(r: Reg)
    ensures Remainder(r, []) == r
  {}

  lemma OneBit(r: Reg, bit: bool)
    ensures Remainder(r, [bit]) == Divide(r, bit)
  {
    hide Divide;
    assert [bit][1..] == [];
    assert Remainder(Divide(r, bit), []) == Divide(r, bit);
  }

  lemma ShiftedOn(r: Reg, n: nat, s: Reg)
    requires n < 16 && s == r[n..] + ZERO[..n]
    ensures Divide(s, r[n]) == r[n + 1..] + ZERO[..n + 1]
  {
    assert s[0] == r[n];
    assert s[1..] == r[n + 1..] + ZERO[..n];
    assert ZERO[..n] + [false] == ZERO[..n + 1];
  }

  lemma DividedByItself(bits: Bits)
    ensures Remainder(INIT, bits + Remainder(INIT, bits)) == ZERO
  {
    var r := Remainder(INIT, bits);
    RemainderConcat(INIT, bits, r);
    ShiftOut(r, 16);
    assert r[..16] == r && r[16..] + ZERO[..16] == ZERO;
  }

  lemma {:induction false} NumberZero(bits: Bits)
    requires forall i :: 0 <= i < |bits| ==> !bits[i]
    ensures Number(bits) == 0
  {
    if bits != [] { NumberZero(bits[..|bits| - 1]); }
  }

  /** A message followed by its own checksum, high byte first, leaves a zero residue. */
  lemma ZeroResidue(data: seq<byte>)
    ensures Crc16(data + HighFirst(Crc16(data))) == 0
  {
    var bits := MessageBits(data);
    var r := Remainder(INIT, bits);
    var framed := data + HighFirst(Crc16(data));
    assert MessageBits(framed) == bits + r by {
      ValueBytes(r);
      MessageBitsConcat(data, HighFirst(Crc16(data)));
    }
    assert Remainder(INIT, MessageBits(framed)) == ZERO by { DividedByItself(bits); }
    NumberZero(ZERO);
  }
}
