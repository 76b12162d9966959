/** Octets, and the fixed-width words of the C code as the bits they are made of. */
module Bytes {
  type Byte = x: int | 0 <= x < 256

  /** A 32-bit unsigned word, and the arithmetic that wraps into it. */
  type Word32 = n: nat | n < 0x1_0000_0000

  function Wrap(x: int): Word32 {
    x % 0x1_0000_0000
  }

  lemma {:induction false} NoWrap(x: nat)
    requires x < 0x1_0000_0000
    ensures Wrap(x) == x
  {
  }

  /** A run of ASCII bytes. */
  type Text = seq<Byte>

  datatype Option<+T> = None | Some(value: T) {
    predicate IsFailure() {
      None?
    }

    function PropagateFailure<U>(): Option<U>
      requires None?
    {
      None
    }

    function Extract(): T
      requires Some?
    {
      value
    }
  }

  /** An unsigned word as its bits, most significant first. */
  type Bits = seq<bool>

  function Zeros(n: nat): (z: Bits)
    ensures |z| == n
  {
    seq(n, _ => false)
  }

  function Xor(a: Bits, b: Bits): (r: Bits)
    requires |a| == |b|
    ensures |r| == |a|
  {
    seq(|a|, i requires 0 <= i < |a| => a[i] != b[i])
  }

  function Or(a: Bits, b: Bits): (r: Bits)
    requires |a| == |b|
    ensures |r| == |a|
  {
    seq(|a|, i requires 0 <= i < |a| => a[i] || b[i])
  }

  function Pow2(n: nat): nat {
    if n == 0 then 1 else 2 * Pow2(n - 1)
  }

  /** The low `n` bits of `v`. */
  function ToBits(v: nat, n: nat): (r: Bits)
    ensures |r| == n
  {
    if n == 0 then [] else ToBits(v / 2, n - 1) + [v % 2 == 1]
  }

  function FromBits(r: Bits): (v: nat)
    ensures v < Pow2(|r|)
  {
    if r == [] then 0
    else 2 * FromBits(r[..|r| - 1]) + if r[|r| - 1] then 1 else 0
  }

  lemma {:induction false} FromToBits(v: nat, n: nat)
    requires v < Pow2(n)
    ensures FromBits(ToBits(v, n)) == v
    decreases n
  {
    if n > 0 {
      FromToBits(v / 2, n - 1);
      assert ToBits(v, n)[..n - 1] == ToBits(v / 2, n - 1);
    }
  }

  lemma {:induction false} ToFromBits(r: Bits)
    ensures ToBits(FromBits(r), |r|) == r
  {
    if r != [] {
      ToFromBits(r[..|r| - 1]);
    }
  }

  lemma {:induction false} ZeroBits(n: nat)
    ensures ToBits(0, n) == Zeros(n)
  {
    if n > 0 {
      ZeroBits(n - 1);
    }
  }

  function ByteBits(b: Byte): (r: Bits)
    ensures |r| == 8
  {
    ToBits(b, 8)
  }

  function ByteOf(r: Bits): Byte
    requires |r| == 8
  {
    assert Pow2(8) == 256;
    FromBits(r)
  }

  lemma {:induction false} ByteRoundTrip(b: Byte)
    ensures ByteOf(ByteBits(b)) == b
  {
    assert Pow2(8) == 256;
    FromToBits(b, 8);
  }

  lemma {:induction false} BitsRoundTrip(r: Bits)
    requires |r| == 8
    ensures ByteBits(ByteOf(r)) == r
  {
    ToFromBits(r);
  }
}
