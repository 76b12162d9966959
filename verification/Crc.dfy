/**
  CRC-16/CCITT-FALSE, as the protocol computes it: eight conditional shifts per
  byte, most significant bit first. The 16-bit register is the sequence of its bits.
 */
module Crc {
  import opened Bytes

  type Reg = r: Bits | |r| == 16 witness [false, false, false, false, false, false, false, false,
                                        false, false, false, false, false, false, false, false]

  /** 0x1021: x^16 + x^12 + x^5 + 1 without its leading term. */
  const POLY: Reg := [false, false, false, true, false, false, false, false,
                      false, false, true, false, false, false, false, true]

  /** 0xFFFF */
  const INIT: Reg := [true, true, true, true, true, true, true, true,
                      true, true, true, true, true, true, true, true]

  /** One pass of the inner loop: shift left, and add the generator if a one fell out. */
  function ShiftBit(crc: Reg): Reg {
    if crc[0] then Xor(crc[1..] + [false], POLY) else crc[1..] + [false]
  }

  function ShiftBits(crc: Reg, n: nat): Reg {
    if n == 0 then crc else ShiftBit(ShiftBits(crc, n - 1))
  }

  function Update(crc: Reg, b: Byte): Reg {
    ShiftBits(Xor(crc, ByteBits(b) + Zeros(8)), |ByteBits(b)|)
  }

  /** The running CRC after a whole buffer. */
  function Fold(crc: Reg, data: seq<Byte>): Reg {
    if data == [] then crc
    else Update(Fold(crc, data[..|data| - 1]), data[|data| - 1])
  }

  function Crc16(data: seq<Byte>): Reg {
    Fold(INIT, data)
  }

  /** The register as the two bytes that go on the wire, and back. */
  function HighByte(crc: Reg): Byte {
    ByteOf(crc[..8])
  }

  function LowByte(crc: Reg): Byte {
    ByteOf(crc[8..])
  }

  function Word(hi: Byte, lo: Byte): Reg {
    ByteBits(hi) + ByteBits(lo)
  }

  lemma {:induction false} WordRoundTrip(crc: Reg)
    ensures Word(HighByte(crc), LowByte(crc)) == crc
  {
    BitsRoundTrip(crc[..8]);
    BitsRoundTrip(crc[8..]);
  }

  /** Assembling the received CRC: high byte shifted up, then the low byte ORed in. */
  lemma {:induction false} WordFromOr(hi: Byte, lo: Byte)
    ensures Or(Word(hi, 0), Word(0, lo)) == Word(hi, lo)
  {
    hide ToBits;
    ZeroBits(8);
  }

  lemma {:induction false} WordParts(hi: Byte, lo: Byte)
    ensures HighByte(Word(hi, lo)) == hi && LowByte(Word(hi, lo)) == lo
  {
    hide ByteBits, ByteOf;
    assert Word(hi, lo)[..8] == ByteBits(hi) && Word(hi, lo)[8..] == ByteBits(lo);
    ByteRoundTrip(hi);
    ByteRoundTrip(lo);
  }

  method Crc16Update(crc: Reg, b: Byte) returns (r: Reg)
    ensures r == Update(crc, b)
  {
    hide ByteBits;
    r := Xor(crc, ByteBits(b) + Zeros(8));
    ghost var start := r;
    var i := 0;
    while i < 8
      invariant 0 <= i <= 8
      invariant r == ShiftBits(start, i)
    {
      if r[0] {
        r := Xor(r[1..] + [false], POLY);
      } else {
        r := r[1..] + [false];
      }
      i := i + 1;
    }
  }

  method Crc16Buffer(data: array<Byte>, from: nat, len: nat) returns (crc: Reg)
    requires from + len <= data.Length
    ensures crc == Crc16(data[from..from + len])
  {
    hide Update;
    crc := INIT;
    var i := 0;
    while i < len
      invariant 0 <= i <= len
      invariant crc == Fold(INIT, data[from..from + i])
    {
      crc := Crc16Update(crc, data[from + i]);
      assert data[from..from + i + 1][..i] == data[from..from + i];
      i := i + 1;
    }
  }

  lemma {:induction false} FoldSnoc(crc: Reg, a: seq<Byte>, b: Byte)
    ensures Fold(crc, a + [b]) == Update(Fold(crc, a), b)
  {
    assert (a + [b])[..|a + [b]| - 1] == a;
  }

  lemma {:induction false} FoldConcat(crc: Reg, a: seq<Byte>, b: seq<Byte>)
    ensures Fold(crc, a + b) == Fold(Fold(crc, a), b)
    decreases |b|
  {
    if b == [] {
      assert a + b == a;
    } else {
      var front, last := b[..|b| - 1], b[|b| - 1];
      calc {
        Fold(crc, a + b);
        { assert a + b == (a + front) + [last]; FoldSnoc(crc, a + front, last); }
        Update(Fold(crc, a + front), last);
        { FoldConcat(crc, a, front); }
        Update(Fold(Fold(crc, a), front), last);
        { assert b == front + [last]; FoldSnoc(Fold(crc, a), front, last); }
        Fold(Fold(crc, a), b);
      }
    }
  }
}
