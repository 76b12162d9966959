/**
  What the CRC detects. The byte-wise code of module Crc is proved equal to the serial
  shift register that defines the code; then, for words of every length: the XOR of two
  words, run through the zeroed register, is the XOR of their CRCs, and it is not zero
  when the flipped bits form a burst of up to 16 bits or are odd in number.
 */
module CrcAlgebra {
  import opened Bytes
  import opened Crc

  // ---------------------------------------------------------------- the serial register

  /** One message bit into the register with feedback taps at x^12, x^5 and 1. */
  function Clock(reg: Reg, bit: bool): Reg {
    seq(16, i requires 0 <= i < 16 =>
      (i < 15 && reg[i + 1]) != (reg[0] != bit && (i == 3 || i == 10 || i == 15)))
  }

  function Lfsr(reg: Reg, bits: Bits): Reg {
    if bits == [] then reg
    else Clock(Lfsr(reg, bits[..|bits| - 1]), bits[|bits| - 1])
  }

  /** A buffer in transmission order. */
  function BitsOf(data: seq<Byte>): (bits: Bits)
    ensures |bits| == 8 * |data|
  {
    if data == [] then []
    else BitsOf(data[..|data| - 1]) + ByteBits(data[|data| - 1])
  }

  lemma {:induction false} LfsrConcat(reg: Reg, a: Bits, b: Bits)
    ensures Lfsr(reg, a + b) == Lfsr(Lfsr(reg, a), b)
  {
    if b == [] {
      assert a + b == a;
    } else {
      LfsrConcat(reg, a, b[..|b| - 1]);
      assert (a + b)[..|a + b| - 1] == a + b[..|b| - 1];
    }
  }

  lemma {:induction false} LfsrHead(reg: Reg, bits: Bits)
    requires bits != []
    ensures Lfsr(reg, bits) == Lfsr(Clock(reg, bits[0]), bits[1..])
  {
    LfsrConcat(reg, bits[..1], bits[1..]);
    assert bits[..1] + bits[1..] == bits;
    assert bits[..1][..0] == [];
  }

  lemma {:induction false} ShiftIsClock(reg: Reg, m: Reg)
    ensures ShiftBit(Xor(reg, m)) == Xor(Clock(reg, m[0]), m[1..] + [false])
  {
  }

  /** Bits XORed into the top of the register and shifted out are those bits clocked in. */
  lemma {:induction false} ShiftsAreClocks(reg: Reg, bits: Bits, n: nat)
    requires n <= |bits| <= 16
    ensures ShiftBits(Xor(reg, bits + Zeros(16 - |bits|)), n) ==
            Xor(Lfsr(reg, bits[..n]), bits[n..] + Zeros(16 - |bits| + n))
  {
    hide Clock, ShiftBit;
    if n == 0 {
      assert bits[..0] == [] && bits[0..] == bits;
    } else {
      ShiftsAreClocks(reg, bits, n - 1);
      var rest := bits[n - 1..] + Zeros(16 - |bits| + n - 1);
      ShiftIsClock(Lfsr(reg, bits[..n - 1]), rest);
      assert bits[..n][..n - 1] == bits[..n - 1];
      assert rest[1..] + [false] == bits[n..] + Zeros(16 - |bits| + n);
    }
  }

  lemma {:induction false} UpdateIsLfsr(reg: Reg, b: Byte)
    ensures Update(reg, b) == Lfsr(reg, ByteBits(b))
  {
    ShiftsAreClocks(reg, ByteBits(b), 8);
    assert ByteBits(b)[..8] == ByteBits(b);
  }

  /** The byte-wise CRC of the C code is the serial register run over the same bits. */
  lemma {:induction false} FoldIsLfsr(reg: Reg, data: seq<Byte>)
    ensures Fold(reg, data) == Lfsr(reg, BitsOf(data))
  {
    if data != [] {
      var front, last := data[..|data| - 1], data[|data| - 1];
      FoldIsLfsr(reg, front);
      LfsrConcat(reg, BitsOf(front), ByteBits(last));
      UpdateIsLfsr(Fold(reg, front), last);
    }
  }

  // ---------------------------------------------------------------- linearity

  lemma {:induction false} LfsrLinear(a: Reg, x: Bits, b: Reg, y: Bits)
    requires |x| == |y|
    ensures Lfsr(Xor(a, b), Xor(x, y)) == Xor(Lfsr(a, x), Lfsr(b, y))
  {
    if x != [] {
      var n := |x| - 1;
      LfsrLinear(a, x[..n], b, y[..n]);
      assert Xor(x, y)[..n] == Xor(x[..n], y[..n]);
    }
  }

  /** The XOR of two CRCs depends only on the XOR of the two words. */
  lemma {:induction false} CrcOfDifference(sent: seq<Byte>, received: seq<Byte>)
    requires |sent| == |received|
    ensures Xor(Crc16(sent), Crc16(received)) == Lfsr(Zeros(16), Xor(BitsOf(sent), BitsOf(received)))
  {
    FoldIsLfsr(INIT, sent);
    FoldIsLfsr(INIT, received);
    LfsrLinear(INIT, BitsOf(sent), INIT, BitsOf(received));
    assert Xor(INIT, INIT) == Zeros(16);
  }

  lemma {:induction false} BitsOfAt(data: seq<Byte>, j: nat, k: nat)
    requires j < |data| && k < 8
    ensures BitsOf(data)[8 * j + k] == ByteBits(data[j])[k]
    decreases |data|
  {
    if j < |data| - 1 {
      BitsOfAt(data[..|data| - 1], j, k);
    }
  }

  lemma {:induction false} DifferentBytes(a: Byte, b: Byte) returns (k: nat)
    requires a != b
    ensures k < 8 && ByteBits(a)[k] != ByteBits(b)[k]
  {
    ByteRoundTrip(a);
    ByteRoundTrip(b);
    assert ByteBits(a) != ByteBits(b);
    k :| 0 <= k < 8 && ByteBits(a)[k] != ByteBits(b)[k];
  }

  /** Buffers that differ in some byte differ in some bit. */
  lemma {:induction false} DifferentBits(a: seq<Byte>, b: seq<Byte>, j: nat)
    requires |a| == |b| && j < |a| && a[j] != b[j]
    ensures !AllZero(Xor(BitsOf(a), BitsOf(b)))
  {
    var k := DifferentBytes(a[j], b[j]);
    BitsOfAt(a, j, k);
    BitsOfAt(b, j, k);
    DifferenceNotZero(BitsOf(a), BitsOf(b), 8 * j + k);
  }

  lemma {:induction false} DifferenceNotZero(x: Bits, y: Bits, i: nat)
    requires |x| == |y| && i < |x| && x[i] != y[i]
    ensures !AllZero(Xor(x, y))
  {
    assert Xor(x, y)[i];
  }

  // ---------------------------------------------------------------- bursts

  ghost predicate AllZero(bits: Bits) {
    forall i :: 0 <= i < |bits| ==> !bits[i]
  }

  lemma {:induction false} ZerosKeepResidue(reg: Reg, zeros: Bits)
    requires AllZero(zeros)
    ensures AllZero(Lfsr(reg, zeros)) <==> AllZero(reg)
  {
    if zeros != [] {
      var r := Lfsr(reg, zeros[..|zeros| - 1]);
      ZerosKeepResidue(reg, zeros[..|zeros| - 1]);
      ClockZero(r);
    }
  }

  lemma {:induction false} ClockZero(r: Reg)
    ensures AllZero(Clock(r, false)) <==> AllZero(r)
  {
    if AllZero(Clock(r, false)) {
      assert !Clock(r, false)[15];
      forall i | 0 <= i < 16
        ensures !r[i]
      {
        if i > 0 {
          assert !Clock(r, false)[i - 1];
        }
      }
    }
  }

  /** Up to 16 further bits clear the register only if they are the bits at its top. */
  lemma {:induction false} ClearedBy(reg: Reg, bits: Bits)
    requires |bits| <= 16
    requires AllZero(Lfsr(reg, bits))
    ensures reg == bits + Zeros(16 - |bits|)
    decreases |bits|
  {
    if bits != [] {
      var next := Clock(reg, bits[0]);
      LfsrHead(reg, bits);
      ClearedBy(next, bits[1..]);
      assert !next[15];
      forall i | 0 <= i < 16
        ensures reg[i] == (bits + Zeros(16 - |bits|))[i]
      {
        if i > 0 {
          assert reg[i] == next[i - 1];
        }
      }
    }
  }

  /** Every flipped bit lies in one window of 16 consecutive bits. */
  ghost predicate WithinBurst(d: Bits, start: nat) {
    forall i :: 0 <= i < |d| && d[i] ==> start <= i < start + 16
  }

  lemma {:induction false} ZeroPrefix(window: Bits, n: nat)
    requires AllZero(window + Zeros(n))
    ensures AllZero(window)
  {
    forall i | 0 <= i < |window|
      ensures !window[i]
    {
      assert window[i] == (window + Zeros(n))[i];
    }
  }

  lemma {:induction false} WindowLeavesResidue(window: Bits)
    requires |window| <= 16 && !AllZero(window)
    ensures !AllZero(Lfsr(Zeros(16), window))
  {
    if AllZero(Lfsr(Zeros(16), window)) {
      ClearedBy(Zeros(16), window);
      ZeroPrefix(window, 16 - |window|);
    }
  }

  /** A non-zero burst of at most 16 bits always leaves a residue. */
  lemma {:induction false} BurstLeavesResidue(d: Bits, start: nat)
    requires WithinBurst(d, start) && !AllZero(d)
    ensures !AllZero(Lfsr(Zeros(16), d))
  {
    hide Lfsr, AllZero;
    var end := WindowParts(d, start);
    BurstInside(d[..start], d[start..end], d[end..]);
    assert d[..start] + (d[start..end] + d[end..]) == d;
  }

  lemma {:induction false} WindowParts(d: Bits, start: nat) returns (end: nat)
    requires WithinBurst(d, start) && !AllZero(d)
    ensures start <= end <= |d| && end <= start + 16
    ensures AllZero(d[..start]) && !AllZero(d[start..end]) && AllZero(d[end..])
  {
    var k :| 0 <= k < |d| && d[k];
    end := if start + 16 <= |d| then start + 16 else |d|;
    assert d[start..end][k - start];
    assert forall i :: 0 <= i < |d[end..]| ==> d[end..][i] == d[end + i];
  }

  lemma {:induction false} BurstInside(before: Bits, window: Bits, after: Bits)
    requires AllZero(before) && AllZero(after)
    requires |window| <= 16 && !AllZero(window)
    ensures !AllZero(Lfsr(Zeros(16), before + (window + after)))
  {
    ZerosKeepResidue(Zeros(16), before);
    WindowLeavesResidue(window);
    ZerosKeepResidue(Lfsr(Zeros(16), window), after);
    LfsrThree(before, window, after);
  }

  /** Clocking 16 bits in clears the register exactly when they are its own contents. */
  lemma {:induction false} ClearedExactlyBy(reg: Reg, word: Reg)
    ensures AllZero(Lfsr(reg, word)) <==> reg == word
  {
    if AllZero(Lfsr(reg, word)) {
      ClearedBy(reg, word);
      assert word + Zeros(0) == word;
    }
    if reg == word {
      ShiftsAreClocks(reg, reg, 16);
      assert reg + Zeros(0) == reg && Xor(reg, reg) == Zeros(16);
      assert reg[..16] == reg && reg[16..] + Zeros(16) == Zeros(16);
      ShiftsOfZero(16);
      assert Xor(Lfsr(reg, reg), Zeros(16)) == Lfsr(reg, reg);
    }
  }

  lemma {:induction false} ShiftsOfZero(n: nat)
    ensures ShiftBits(Zeros(16), n) == Zeros(16)
  {
    if n > 0 {
      ShiftsOfZero(n - 1);
    }
  }

  lemma {:induction false} LfsrThree(before: Bits, window: Bits, after: Bits)
    requires AllZero(Lfsr(Zeros(16), before))
    ensures Lfsr(Zeros(16), before + (window + after)) == Lfsr(Lfsr(Zeros(16), window), after)
  {
    LfsrConcat(Zeros(16), before, window + after);
    assert Lfsr(Zeros(16), before) == Zeros(16);
    LfsrConcat(Zeros(16), window, after);
  }

  // ---------------------------------------------------------------- parity

  predicate Odd(bits: Bits) {
    if bits == [] then false else Odd(bits[..|bits| - 1]) != bits[|bits| - 1]
  }

  lemma {:induction false} OddXor(a: Bits, b: Bits)
    requires |a| == |b|
    ensures Odd(Xor(a, b)) == (Odd(a) != Odd(b))
  {
    if a != [] {
      OddXor(a[..|a| - 1], b[..|b| - 1]);
      assert Xor(a, b)[..|a| - 1] == Xor(a[..|a| - 1], b[..|b| - 1]);
    }
  }

  lemma {:induction false} OddConcat(a: Bits, b: Bits)
    ensures Odd(a + b) == (Odd(a) != Odd(b))
  {
    if b == [] {
      assert a + b == a;
    } else {
      OddConcat(a, b[..|b| - 1]);
      assert (a + b)[..|a + b| - 1] == a + b[..|b| - 1];
    }
  }

  lemma {:induction false} ZeroIsEven(bits: Bits)
    requires AllZero(bits)
    ensures !Odd(bits)
  {
    if bits != [] {
      ZeroIsEven(bits[..|bits| - 1]);
    }
  }

  lemma {:induction false} OneBitIsOdd(n: nat)
    ensures Odd(Zeros(n) + [true])
  {
    ZeroIsEven(Zeros(n));
    assert (Zeros(n) + [true])[..n] == Zeros(n);
  }

  lemma {:induction false} OddPoly()
    ensures Odd(POLY)
  {
    OneBitIsOdd(3);
    OneBitIsOdd(6);
    OneBitIsOdd(4);
    OddConcat(Zeros(3) + [true], Zeros(6) + [true]);
    OddConcat(Zeros(3) + [true] + (Zeros(6) + [true]), Zeros(4) + [true]);
    assert POLY == Zeros(3) + [true] + (Zeros(6) + [true]) + (Zeros(4) + [true]);
  }

  /** The generator is divisible by x + 1, so clocking a bit in adds its parity. */
  lemma {:induction false} ClockParity(reg: Reg, bit: bool)
    ensures Odd(Clock(reg, bit)) == (Odd(reg) != bit)
  {
    var shifted := reg[1..] + [false];
    OddConcat(reg[..1], reg[1..]);
    assert reg[..1] + reg[1..] == reg && reg[..1][..0] == [];
    OddConcat(reg[1..], [false]);
    assert [false][..0] == [];
    OddPoly();
    OddXor(shifted, POLY);
    assert Clock(reg, bit) == if reg[0] != bit then Xor(shifted, POLY) else shifted;
  }

  lemma {:induction false} LfsrParity(reg: Reg, bits: Bits)
    ensures Odd(Lfsr(reg, bits)) == (Odd(reg) != Odd(bits))
  {
    if bits != [] {
      LfsrParity(reg, bits[..|bits| - 1]);
      ClockParity(Lfsr(reg, bits[..|bits| - 1]), bits[|bits| - 1]);
    }
  }

  /** An odd number of flipped bits, wherever they are, always leaves a residue. */
  lemma {:induction false} OddLeavesResidue(d: Bits)
    requires Odd(d)
    ensures !AllZero(Lfsr(Zeros(16), d))
  {
    LfsrParity(Zeros(16), d);
    ZeroIsEven(Zeros(16));
    if AllZero(Lfsr(Zeros(16), d)) {
      ZeroIsEven(Lfsr(Zeros(16), d));
      assert false;
    }
  }
}
