/**
  One frame on the wire, A5 5A TAG LEN VALUE CRC-hi CRC-lo, and the two whole-buffer
  operations on it. The CRC covers TAG, LEN and VALUE.
 */
module Frame {
  import opened Bytes
  import opened Crc
  import opened CrcAlgebra
  import opened DoubleErrors

  const SOF0: Byte := 0xA5
  const SOF1: Byte := 0x5A
  const HEADER_SIZE: nat := 4
  const CRC_SIZE: nat := 2
  const MIN_FRAME: nat := 6
  const MAX_VALUE: nat := 255

  /** The value of a frame; its length fits the one-byte LEN field. */
  type Value = v: seq<Byte> | |v| <= MAX_VALUE

  datatype Frame = Frame(tag: Byte, value: Value)

  datatype Status = TlvOk | Incomplete | ErrSpace | ErrNoSof | ErrCrc

  datatype Decoded = Decoded(frame: Frame, consumed: nat) | Rejected(status: Status)

  /** The bytes the CRC covers. */
  function Body(f: Frame): (b: seq<Byte>)
    ensures |b| == 2 + |f.value|
  {
    [f.tag, |f.value|] + f.value
  }

  function Encode(f: Frame): (out: seq<Byte>)
    ensures |out| == HEADER_SIZE + |f.value| + CRC_SIZE
  {
    [SOF0, SOF1] + Body(f) + [HighByte(Crc16(Body(f))), LowByte(Crc16(Body(f)))]
  }

  function Decode(buf: seq<Byte>): Decoded {
    if |buf| >= 1 && buf[0] != SOF0 then Rejected(ErrNoSof)
    else if |buf| >= 2 && buf[1] != SOF1 then Rejected(ErrNoSof)
    else if |buf| < MIN_FRAME then Rejected(Incomplete)
    else
      var len := buf[3];
      var total := HEADER_SIZE + len + CRC_SIZE;
      if |buf| < total then Rejected(Incomplete)
      else if Crc16(buf[2..4 + len]) != Word(buf[4 + len], buf[5 + len]) then Rejected(ErrCrc)
      else Decoded(Frame(buf[2], buf[4..4 + len]), total)
  }

  /** Writes the frame into `out`, or leaves `out` alone if it does not fit. */
  method TlvEncode(tag: Byte, value: Value, out: array<Byte>) returns (status: Status, outLen: nat)
    modifies out
    ensures status == if out.Length < HEADER_SIZE + |value| + CRC_SIZE then ErrSpace else TlvOk
    ensures status == ErrSpace ==> out[..] == old(out[..])
    ensures status == TlvOk ==> outLen == |Encode(Frame(tag, value))| <= out.Length
    ensures status == TlvOk ==> out[..] == Encode(Frame(tag, value)) + old(out[..])[outLen..]
  {
    hide Fold, HighByte, LowByte, Encode;
    var need := HEADER_SIZE + |value| + CRC_SIZE;
    if out.Length < need {
      return ErrSpace, 0;
    }
    out[0] := SOF0;
    out[1] := SOF1;
    out[2] := tag;
    out[3] := |value|;
    var i := 0;
    while i < |value|
      invariant 0 <= i <= |value|
      invariant out[0] == SOF0 && out[1] == SOF1 && out[2] == tag && out[3] == |value|
      invariant forall k :: 0 <= k < i ==> out[4 + k] == value[k]
      invariant forall k :: need <= k < out.Length ==> out[k] == old(out[k])
    {
      out[HEADER_SIZE + i] := value[i];
      i := i + 1;
    }
    assert out[2..2 + (|value| + 2)] == [tag, |value|] + value;
    var crc := Crc16Buffer(out, 2, |value| + 2);
    out[HEADER_SIZE + |value|] := HighByte(crc);
    out[HEADER_SIZE + |value| + 1] := LowByte(crc);
    Assembled(out[..], Frame(tag, value));
    assert out[need..] == old(out[..])[need..];
    return TlvOk, need;
  }

  lemma {:induction false} Assembled(bytes: seq<Byte>, f: Frame)
    requires |bytes| >= |f.value| + 6
    requires bytes[0] == SOF0 && bytes[1] == SOF1 && bytes[2] == f.tag && bytes[3] == |f.value|
    requires forall k :: 0 <= k < |f.value| ==> bytes[4 + k] == f.value[k]
    requires bytes[|f.value| + 4] == HighByte(Crc16([f.tag, |f.value|] + f.value))
    requires bytes[|f.value| + 5] == LowByte(Crc16([f.tag, |f.value|] + f.value))
    ensures bytes == Encode(f) + bytes[|f.value| + 6..]
  {
    hide Fold, HighByte, LowByte;
  }

  method TlvDecode(buf: array<Byte>, len: nat) returns (r: Decoded)
    requires len <= buf.Length
    ensures r == Decode(buf[..len])
  {
    hide Fold, Word;
    if len >= 1 && buf[0] != SOF0 {
      return Rejected(ErrNoSof);
    }
    if len >= 2 && buf[1] != SOF1 {
      return Rejected(ErrNoSof);
    }
    if len < MIN_FRAME {
      return Rejected(Incomplete);
    }
    var valueLen: nat := buf[3];
    var total := HEADER_SIZE + valueLen + CRC_SIZE;
    if len < total {
      return Rejected(Incomplete);
    }
    var crcCalc := Crc16Buffer(buf, 2, valueLen + 2);
    var crcRx := Word(buf[HEADER_SIZE + valueLen], buf[HEADER_SIZE + valueLen + 1]);
    assert buf[..len][2..4 + valueLen] == buf[2..2 + (valueLen + 2)];
    if crcCalc != crcRx {
      return Rejected(ErrCrc);
    }
    assert buf[..len][4..4 + valueLen] == buf[4..4 + valueLen];
    return Decoded(Frame(buf[2], buf[4..4 + valueLen]), total);
  }

  // ---------------------------------------------------------------- layout and verdicts

  /** On the wire: A5 5A, tag, length, value, and the CRC of all but the sync bytes, high byte first. */
  lemma {:induction false} FrameLayout(f: Frame)
    ensures var w, n := Encode(f), |f.value|;
            && |w| == n + 6
            && w[..4] == [0xA5, 0x5A, f.tag, n] && w[4..n + 4] == f.value
            && ByteBits(w[n + 4]) + ByteBits(w[n + 5]) == Crc16(w[2..n + 4])
  {
    hide Fold, HighByte, LowByte, ByteBits;
    WordRoundTrip(Crc16(Body(f)));
    assert Encode(f)[2..|f.value| + 4] == Body(f);
  }

  /** Each verdict of the block decoder, and when it is given. */
  lemma {:induction false} DecodeVerdicts(buf: seq<Byte>)
    ensures var synced := (|buf| >= 1 ==> buf[0] == 0xA5) && (|buf| >= 2 ==> buf[1] == 0x5A);
            var whole := |buf| >= 6 && |buf| >= 6 + (buf[3] as int);
            && (Decode(buf) == Rejected(ErrNoSof) <==> !synced)
            && (Decode(buf) == Rejected(Incomplete) <==> synced && !whole)
            && (Decode(buf) == Rejected(ErrCrc) <==>
                  synced && whole
                  && Crc16(buf[2..4 + buf[3]]) != ByteBits(buf[4 + buf[3]]) + ByteBits(buf[5 + buf[3]]))
  {
    hide Fold, ByteBits;
  }

  // ---------------------------------------------------------------- round trip

  /** A buffer decodes to a frame exactly when it starts with that frame's encoding. */
  lemma {:induction false} DecodeInvertsEncode(buf: seq<Byte>, f: Frame)
    ensures Decode(buf) == Decoded(f, |Encode(f)|) <==> Encode(f) <= buf
  {
    hide Fold, HighByte, LowByte, Word;
    var crc := Crc16(Body(f));
    WordRoundTrip(crc);
    if Encode(f) <= buf {
      var n := |f.value|;
      assert buf[2..4 + n] == Encode(f)[2..4 + n] == Body(f);
      assert buf[4..4 + n] == Encode(f)[4..4 + n] == f.value;
    }
    if Decode(buf) == Decoded(f, |Encode(f)|) {
      DecodedStartsWithFrame(buf, f);
    }
  }

  lemma {:induction false} DecodedStartsWithFrame(buf: seq<Byte>, f: Frame)
    requires Decode(buf) == Decoded(f, |Encode(f)|)
    ensures Encode(f) <= buf
  {
    hide Fold, HighByte, LowByte, Word;
    var n := |f.value|;
    assert buf[2..4 + n] == Body(f);
    WordParts(buf[4 + n], buf[5 + n]);
  }

  /** A frame cut short is never mistaken for a bad one. */
  lemma {:induction false} PrefixIsIncomplete(f: Frame, n: nat)
    requires n < |Encode(f)|
    ensures Decode(Encode(f)[..n]) == Rejected(Incomplete)
  {
    hide Fold, HighByte, LowByte, Word;
  }

  // ---------------------------------------------------------------- corruption

  /** The received bytes are the frame's, with sync bytes and LEN intact but not all the rest. */
  ghost predicate Corrupted(f: Frame, received: seq<Byte>) {
    && |received| == |Encode(f)|
    && received[0] == SOF0 && received[1] == SOF1 && received[3] == |f.value|
    && received != Encode(f)
  }

  /** Which bits of TAG, LEN, VALUE and CRC were flipped. */
  ghost function Flips(f: Frame, received: seq<Byte>): (d: Bits)
    requires |received| == |Encode(f)|
    ensures |d| == 8 * (|received| - 2)
  {
    Xor(BitsOf(Encode(f)[2..]), BitsOf(received[2..]))
  }

  /** The flips the generator polynomial is chosen to catch. */
  ghost predicate Detectable(d: Bits) {
    || Odd(d)
    || (exists start: nat :: WithinBurst(d, start))
    || (exists i: nat, j: nat :: TwoFlips(d, i, j) && (j - i) % ORDER != 0)
  }

  lemma {:induction false} CrcMatchesIffCleared(covered: seq<Byte>, hi: Byte, lo: Byte)
    ensures Crc16(covered) == Word(hi, lo) <==> AllZero(Crc16(covered + [hi, lo]))
  {
    hide Update, ToBits;
    FoldConcat(INIT, covered, [hi, lo]);
    FoldIsLfsr(Crc16(covered), [hi, lo]);
    assert BitsOf([hi, lo]) == Word(hi, lo) by {
      assert [hi, lo][..1] == [hi] && [hi][..0] == [];
    }
    ClearedExactlyBy(Crc16(covered), Word(hi, lo));
  }

  lemma {:induction false} XorZero(a: Reg, b: Reg)
    requires AllZero(a)
    ensures Xor(a, b) == b
  {
  }

  /** Flips caught by the code leave the received CRC different from the computed one. */
  lemma {:induction false} DetectableFlipsFailCrc(f: Frame, received: seq<Byte>)
    requires Corrupted(f, received) && Detectable(Flips(f, received))
    ensures var n := |f.value|;
            Crc16(received[2..4 + n]) != Word(received[4 + n], received[5 + n])
  {
    hide Fold, HighByte, LowByte, Word, Lfsr, BitsOf, Odd;
    var n := |f.value|;
    var sent := Encode(f)[2..];
    var got := received[2..];
    var crc := Crc16(Body(f));
    WordRoundTrip(crc);
    CrcMatchesIffCleared(Body(f), HighByte(crc), LowByte(crc));
    assert sent == Body(f) + [HighByte(crc), LowByte(crc)];
    CrcMatchesIffCleared(received[2..4 + n], received[4 + n], received[5 + n]);
    assert got == received[2..4 + n] + [received[4 + n], received[5 + n]];
    CrcOfDifference(sent, got);
    XorZero(Crc16(sent), Crc16(got));
    FlipsLeaveResidue(f, received);
  }

  lemma {:induction false} FlipsLeaveResidue(f: Frame, received: seq<Byte>)
    requires Corrupted(f, received) && Detectable(Flips(f, received))
    ensures !AllZero(Lfsr(Zeros(16), Flips(f, received)))
  {
    hide Fold, HighByte, LowByte, Lfsr, BitsOf, Odd;
    var d := Flips(f, received);
    if Odd(d) {
      OddLeavesResidue(d);
    } else if i: nat, j: nat :| TwoFlips(d, i, j) && (j - i) % ORDER != 0 {
      TwoFlipsLeaveResidue(d, i, j);
    } else {
      var start: nat :| WithinBurst(d, start);
      var j :| 2 <= j < |received| && received[j] != Encode(f)[j];
      DifferentBits(Encode(f)[2..], received[2..], j - 2);
      BurstLeavesResidue(d, start);
    }
  }

  /** Up to three flipped bits, wherever they are, are detectable: no frame is as long as 32767 bits. */
  lemma {:induction false} FewFlipsAreDetectable(f: Frame, received: seq<Byte>)
    requires Corrupted(f, received) && Weight(Flips(f, received)) <= 3
    ensures Detectable(Flips(f, received))
  {
    hide Fold, HighByte, LowByte, Lfsr, BitsOf, Odd, Weight, TwoFlips;
    var d := Flips(f, received);
    var j :| 2 <= j < |received| && received[j] != Encode(f)[j];
    DifferentBits(Encode(f)[2..], received[2..], j - 2);
    WeightZero(d);
    WeightParity(d);
    if Weight(d) == 2 {
      var i, j := WeightTwo(d);
      assert 0 < j - i < ORDER by { TwoFlipsApart(d, i, j); }
    }
  }

  lemma {:induction false} TwoFlipsApart(d: Bits, i: nat, j: nat)
    requires TwoFlips(d, i, j) && |d| <= 2072
    ensures 0 < j - i < ORDER && (j - i) % ORDER != 0
  {
  }

  /** Any detectable damage to TAG, VALUE or CRC of a frame of any length is reported as a CRC error. */
  lemma {:induction false} CorruptionDetected(f: Frame, received: seq<Byte>)
    requires Corrupted(f, received) && Detectable(Flips(f, received))
    ensures Decode(received) == Rejected(ErrCrc)
  {
    hide Fold, HighByte, LowByte, Word, Flips, Detectable;
    DetectableFlipsFailCrc(f, received);
  }

  /** Damage confined to two neighbouring bytes is a burst of at most 16 bits. */
  lemma {:induction false} TwoByteDamageIsDetectable(f: Frame, received: seq<Byte>, p: nat)
    requires Corrupted(f, received) && p >= 2
    requires forall j :: 0 <= j < |received| && j != p && j != p + 1 ==> received[j] == Encode(f)[j]
    ensures Detectable(Flips(f, received))
  {
    hide Fold, HighByte, LowByte, BitsOf, Odd, ByteBits;
    var d := Flips(f, received);
    var sent, got := Encode(f)[2..], received[2..];
    forall i | 0 <= i < |d| && d[i]
      ensures 8 * (p - 2) <= i < 8 * (p - 2) + 16
    {
      BitsOfAt(sent, i / 8, i % 8);
      BitsOfAt(got, i / 8, i % 8);
      assert 8 * (i / 8) + i % 8 == i;
      assert sent[i / 8] != got[i / 8];
    }
    assert WithinBurst(d, 8 * (p - 2));
  }

  // ---------------------------------------------------------------- a damaged LEN

  /**
    With LEN alone damaged, a frame is incomplete if its length grew; if it shrank, a shorter
    frame is accepted exactly when the two bytes after it happen to be its CRC.
   */
  lemma {:induction false} DamagedLength(f: Frame, m: Byte)
    requires m != |f.value|
    ensures var received := Encode(f)[3 := m];
            if m > |f.value| then Decode(received) == Rejected(Incomplete)
            else
              var g := Frame(f.tag, f.value[..m]);
              Decode(received) == Decoded(g, 6 + m)
              <==> received[4 + m..6 + m] == [HighByte(Crc16(Body(g))), LowByte(Crc16(Body(g)))]
  {
    hide Crc16, HighByte, LowByte, Word;
    if m < |f.value| {
      var received, g := Encode(f)[3 := m], Frame(f.tag, f.value[..m]);
      var start := received[..6 + m];
      assert start == [SOF0, SOF1] + Body(g) + received[4 + m..6 + m];
      hide Decode;
      DecodeInvertsEncode(received, g);
      assert Encode(g)[4 + m..] == [HighByte(Crc16(Body(g))), LowByte(Crc16(Body(g)))];
    }
  }

  /** And every frame but the longest two lengths is such a shorter one, of the frame whose value carries its CRC on. */
  lemma {:induction false} DamagedLengthCanPass(g: Frame)
    requires |g.value| <= MAX_VALUE - 2
    ensures var f := Frame(g.tag, g.value + [HighByte(Crc16(Body(g))), LowByte(Crc16(Body(g)))]);
            Decode(Encode(f)[3 := |g.value|]) == Decoded(g, 6 + |g.value|)
  {
    hide Crc16, HighByte, LowByte, Word, Decode;
    var m: Byte := |g.value|;
    var f := Frame(g.tag, g.value + [HighByte(Crc16(Body(g))), LowByte(Crc16(Body(g)))]);
    assert f.value[..m] == g.value;
    assert Encode(f)[3 := m][4 + m..6 + m] == f.value[m..m + 2];
    DamagedLength(f, m);
  }
}
