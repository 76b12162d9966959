/**
  The payload writer and reader: big-endian fields in a bounded buffer, each with a
  sticky `ok` flag that is checked once at the end.

  `Put` and `Take` are the closed forms the two classes are proved against; the theorems
  are about arbitrary sequences of fields.
 */
module Payload {
  import opened Bytes

  type Word16 = x: int | 0 <= x < 0x1_0000
  type Int16 = x: int | -0x8000 <= x < 0x8000
  type Int32 = x: int | -0x8000_0000 <= x < 0x8000_0000

  datatype Field = U8(u8: Byte) | U16(u16: Word16) | U32(u32: Word32)
                 | I16(i16: Int16) | I32(i32: Int32) | Raw(bytes: seq<Byte>)

  datatype Kind = KU8 | KU16 | KU32 | KI16 | KI32 | KRaw(n: nat)

  // ---------------------------------------------------------------- one field

  function Bytes16(v: Word16): (b: seq<Byte>)
    ensures |b| == 2
  {
    [v / 0x100, v % 0x100]
  }

  function Bytes32(v: Word32): (b: seq<Byte>)
    ensures |b| == 4
  {
    Bytes16(v / 0x1_0000) + Bytes16(v % 0x1_0000)
  }

  /** The C casts between signed and unsigned words of one width. */
  function ToUnsigned16(v: Int16): Word16 {
    if v < 0 then v + 0x1_0000 else v
  }

  function ToSigned16(v: Word16): Int16 {
    if v >= 0x8000 then v - 0x1_0000 else v
  }

  function ToUnsigned32(v: Int32): Word32 {
    if v < 0 then v + 0x1_0000_0000 else v
  }

  function ToSigned32(v: Word32): Int32 {
    if v >= 0x8000_0000 then v - 0x1_0000_0000 else v
  }

  function FromBytes16(hi: Byte, lo: Byte): Word16 {
    hi * 0x100 + lo
  }

  function FromBytes32(b0: Byte, b1: Byte, b2: Byte, b3: Byte): Word32 {
    FromBytes16(b0, b1) * 0x1_0000 + FromBytes16(b2, b3)
  }

  /** The bytes a field occupies. */
  function FieldBytes(f: Field): (b: seq<Byte>)
    ensures |b| == Size(KindOf(f))
  {
    match f
    case U8(v) => [v]
    case U16(v) => Bytes16(v)
    case U32(v) => Bytes32(v)
    case I16(v) => Bytes16(ToUnsigned16(v))
    case I32(v) => Bytes32(ToUnsigned32(v))
    case Raw(bytes) => bytes
  }

  function KindOf(f: Field): Kind {
    match f
    case U8(_) => KU8
    case U16(_) => KU16
    case U32(_) => KU32
    case I16(_) => KI16
    case I32(_) => KI32
    case Raw(bytes) => KRaw(|bytes|)
  }

  function Size(k: Kind): nat {
    match k
    case KU8 => 1
    case KU16 => 2
    case KU32 => 4
    case KI16 => 2
    case KI32 => 4
    case KRaw(n) => n
  }

  /** The field a reader makes of the bytes it took. */
  function Interpret(k: Kind, b: seq<Byte>): Field
    requires |b| == Size(k)
  {
    match k
    case KU8 => U8(b[0])
    case KU16 => U16(FromBytes16(b[0], b[1]))
    case KU32 => U32(FromBytes32(b[0], b[1], b[2], b[3]))
    case KI16 => I16(ToSigned16(FromBytes16(b[0], b[1])))
    case KI32 => I32(ToSigned32(FromBytes32(b[0], b[1], b[2], b[3])))
    case KRaw(_) => Raw(b)
  }

  /** Most significant byte first, negative numbers in two's complement. */
  lemma {:induction false} FieldsAreBigEndian(f: Field)
    ensures var b := FieldBytes(f);
            match f
            case U8(v) => b == [v]
            case U16(v) => |b| == 2 && 0x100 * (b[0] as int) + b[1] == v
            case U32(v) =>
              |b| == 4 && 0x100_0000 * (b[0] as int) + 0x1_0000 * (b[1] as int) + 0x100 * (b[2] as int) + b[3] == v
            case I16(v) => |b| == 2 && 0x100 * (b[0] as int) + b[1] == v + if v < 0 then 0x1_0000 else 0
            case I32(v) =>
              |b| == 4 && 0x100_0000 * (b[0] as int) + 0x1_0000 * (b[1] as int) + 0x100 * (b[2] as int) + b[3]
                          == v + if v < 0 then 0x1_0000_0000 else 0
            case Raw(bytes) => b == bytes
  {
  }

  lemma {:induction false} InterpretInvertsFieldBytes(f: Field)
    ensures Interpret(KindOf(f), FieldBytes(f)) == f
  {
    hide Bytes16, FromBytes16;
    match f
    case U8(_) =>
    case U16(v) =>
      Word16RoundTrip(v);
    case U32(v) =>
      Word32RoundTrip(v);
    case I16(v) =>
      Word16RoundTrip(ToUnsigned16(v));
    case I32(v) =>
      Word32RoundTrip(ToUnsigned32(v));
    case Raw(_) =>
  }

  lemma {:induction false} Word16RoundTrip(v: Word16)
    ensures FromBytes16(Bytes16(v)[0], Bytes16(v)[1]) == v
  {
  }

  lemma {:induction false} Word32RoundTrip(v: Word32)
    ensures var b := Bytes32(v);
            FromBytes32(b[0], b[1], b[2], b[3]) == v
  {
    hide Bytes16, FromBytes16;
    Word16RoundTrip(v / 0x1_0000);
    Word16RoundTrip(v % 0x1_0000);
  }

  // ---------------------------------------------------------------- the writer

  datatype Written = Written(bytes: seq<Byte>, cap: nat, ok: bool)

  /** Appends what fits; the first byte that does not fit clears `ok`, for good. */
  function Put(w: Written, b: seq<Byte>): Written
    requires |w.bytes| <= w.cap
  {
    if !w.ok then w
    else if |w.bytes| + |b| <= w.cap then w.(bytes := w.bytes + b)
    else w.(bytes := w.bytes + b[..w.cap - |w.bytes|], ok := false)
  }

  lemma {:induction false} PutConcat(w: Written, a: seq<Byte>, b: seq<Byte>)
    requires |w.bytes| <= w.cap
    ensures |Put(w, a).bytes| <= w.cap && Put(w, a).cap == w.cap
    ensures Put(Put(w, a), b) == Put(w, a + b)
  {
  }

  class TlvWriter {
    const buf: array<Byte>
    const cap: nat
    var len: nat
    var ok: bool

    ghost predicate Valid()
      reads this
    {
      len <= cap <= buf.Length
    }

    ghost function Abs(): Written
      requires Valid()
      reads this, buf
    {
      Written(buf[..len], cap, ok)
    }

    constructor (buf: array<Byte>, cap: nat)
      requires cap <= buf.Length
      ensures Valid() && this.buf == buf && Abs() == Written([], cap, true)
    {
      this.buf, this.cap, len, ok := buf, cap, 0, true;
    }

    method PutByte(b: Byte)
      requires Valid()
      modifies this, buf
      ensures Valid() && Abs() == Put(old(Abs()), [b])
      ensures old(len) <= len && forall k :: len <= k < buf.Length ==> buf[k] == old(buf[k])
    {
      if !ok {
        return;
      }
      if len >= cap {
        ok := false;
        return;
      }
      buf[len] := b;
      len := len + 1;
    }

    method PutU8(v: Byte)
      requires Valid()
      modifies this, buf
      ensures Valid() && Abs() == Put(old(Abs()), FieldBytes(U8(v)))
      ensures old(len) <= len && forall k :: len <= k < buf.Length ==> buf[k] == old(buf[k])
    {
      PutByte(v);
    }

    method PutU16(v: Word16)
      requires Valid()
      modifies this, buf
      ensures Valid() && Abs() == Put(old(Abs()), FieldBytes(U16(v)))
      ensures old(len) <= len && forall k :: len <= k < buf.Length ==> buf[k] == old(buf[k])
    {
      PutConcat(Abs(), [v / 0x100], [v % 0x100]);
      PutByte(v / 0x100);
      PutByte(v % 0x100);
      assert [v / 0x100] + [v % 0x100] == Bytes16(v);
    }

    method PutU32(v: Word32)
      requires Valid()
      modifies this, buf
      ensures Valid() && Abs() == Put(old(Abs()), FieldBytes(U32(v)))
      ensures old(len) <= len && forall k :: len <= k < buf.Length ==> buf[k] == old(buf[k])
    {
      var b0, b1, b2, b3 := v / 0x100_0000, v / 0x1_0000 % 0x100, v / 0x100 % 0x100, v % 0x100;
      ShiftsOfWord32(v);
      ghost var w := Abs();
      PutConcat(w, [b0], [b1]);
      PutConcat(w, [b0] + [b1], [b2]);
      PutConcat(w, [b0] + [b1] + [b2], [b3]);
      assert [b0] + [b1] + [b2] + [b3] == Bytes32(v);
      hide Put, Bytes32;
      PutByte(b0);
      PutByte(b1);
      assert Abs() == Put(w, [b0] + [b1]);
      PutByte(b2);
      assert Abs() == Put(w, [b0] + [b1] + [b2]);
      PutByte(b3);
    }

    method PutI16(v: Int16)
      requires Valid()
      modifies this, buf
      ensures Valid() && Abs() == Put(old(Abs()), FieldBytes(I16(v)))
      ensures old(len) <= len && forall k :: len <= k < buf.Length ==> buf[k] == old(buf[k])
    {
      PutU16(ToUnsigned16(v));
    }

    method PutI32(v: Int32)
      requires Valid()
      modifies this, buf
      ensures Valid() && Abs() == Put(old(Abs()), FieldBytes(I32(v)))
      ensures old(len) <= len && forall k :: len <= k < buf.Length ==> buf[k] == old(buf[k])
    {
      PutU32(ToUnsigned32(v));
    }

    method PutBytes(src: seq<Byte>)
      requires Valid()
      modifies this, buf
      ensures Valid() && Abs() == Put(old(Abs()), FieldBytes(Raw(src)))
      ensures old(len) <= len && forall k :: len <= k < buf.Length ==> buf[k] == old(buf[k])
    {
      ghost var w := Abs();
      var i := 0;
      while i < |src|
        invariant 0 <= i <= |src|
        invariant Valid() && Abs() == Put(w, src[..i])
        invariant old(len) <= len && forall k :: len <= k < buf.Length ==> buf[k] == old(buf[k])
      {
        PutConcat(w, src[..i], [src[i]]);
        assert src[..i] + [src[i]] == src[..i + 1];
        PutByte(src[i]);
        i := i + 1;
      }
      assert src[..|src|] == src;
    }
  }

  /** Shifting a word right and keeping eight bits picks its bytes from the top. */
  lemma {:induction false} ShiftsOfWord32(v: Word32)
    ensures Bytes32(v) == [v / 0x100_0000, v / 0x1_0000 % 0x100, v / 0x100 % 0x100, v % 0x100]
  {
    HighHalf(v);
    LowHalf(v);
  }

  lemma {:induction false} HighHalf(v: nat)
    ensures v / 0x1_0000 / 0x100 == v / 0x100_0000
  {
  }

  lemma {:induction false} LowHalf(v: nat)
    ensures v % 0x1_0000 / 0x100 == v / 0x100 % 0x100
    ensures v % 0x1_0000 % 0x100 == v % 0x100
  {
  }

  // ---------------------------------------------------------------- the reader

  datatype Reading = Reading(payload: seq<Byte>, pos: nat, ok: bool)

  predicate InRange(r: Reading) {
    r.pos <= |r.payload|
  }

  function ZeroBytes(n: nat): (z: seq<Byte>)
    ensures |z| == n
  {
    seq(n, _ => 0)
  }

  /** Takes `n` bytes; past the end it supplies zeros and clears `ok`, for good. */
  function Take(r: Reading, n: nat): (t: (Reading, seq<Byte>))
    requires InRange(r)
    ensures InRange(t.0) && |t.1| == n && t.0.payload == r.payload
  {
    if !r.ok then (r, ZeroBytes(n))
    else if r.pos + n <= |r.payload| then (r.(pos := r.pos + n), r.payload[r.pos..r.pos + n])
    else (r.(pos := |r.payload|, ok := false),
          r.payload[r.pos..] + ZeroBytes(n - (|r.payload| - r.pos)))
  }

  lemma {:induction false} TakeConcat(r: Reading, m: nat, n: nat)
    requires InRange(r)
    ensures var (r1, a) := Take(r, m);
            var (r2, b) := Take(r1, n);
            Take(r, m + n) == (r2, a + b)
  {
    var left := |r.payload| - r.pos;
    if !r.ok {
      assert ZeroBytes(m) + ZeroBytes(n) == ZeroBytes(m + n);
    } else if m + n <= left {
      assert r.payload[r.pos..r.pos + m] + r.payload[r.pos + m..r.pos + m + n] == r.payload[r.pos..r.pos + m + n];
    } else if m <= left {
      assert r.payload[r.pos..r.pos + m] + (r.payload[r.pos + m..] + ZeroBytes(m + n - left))
          == r.payload[r.pos..] + ZeroBytes(m + n - left);
    } else {
      assert r.payload[r.pos..] + ZeroBytes(m - left) + ZeroBytes(n) == r.payload[r.pos..] + ZeroBytes(m + n - left);
    }
  }

  lemma {:induction false} TakeNothing(r: Reading)
    requires InRange(r)
    ensures Take(r, 0) == (r, [])
  {
    assert r.payload[r.pos..r.pos] == [];
  }

  lemma {:induction false} FourBytes(b0: Byte, b1: Byte, b2: Byte, b3: Byte)
    ensures Interpret(KU32, [b0, b1, b2, b3])
            == U32((b0 as int) * 0x100_0000 + (b1 as int) * 0x1_0000 + (b2 as int) * 0x100 + b3)
  {
  }

  class TlvReader {
    const buf: array<Byte>
    const len: nat
    var pos: nat
    var ok: bool

    ghost predicate Valid()
      reads this
    {
      pos <= len <= buf.Length
    }

    ghost function Abs(): (r: Reading)
      requires Valid()
      reads this, buf
      ensures InRange(r)
    {
      Reading(buf[..len], pos, ok)
    }

    constructor (buf: array<Byte>, len: nat)
      requires len <= buf.Length
      ensures Valid() && Abs() == Reading(buf[..len], 0, true)
    {
      this.buf, this.len, pos, ok := buf, len, 0, true;
    }

    method GetByte() returns (b: Byte)
      requires Valid()
      modifies this
      ensures Valid() && (Abs(), [b]) == Take(old(Abs()), 1)
    {
      assert ZeroBytes(1) == [0];
      if !ok {
        return 0;
      }
      if pos >= len {
        assert buf[..len][pos..] + [0] == [0];
        ok := false;
        return 0;
      }
      b := buf[pos];
      assert buf[..len][pos..pos + 1] == [b];
      pos := pos + 1;
    }

    method GetU16() returns (v: Word16)
      requires Valid()
      modifies this
      ensures Valid() && Abs() == Take(old(Abs()), 2).0
      ensures U16(v) == Interpret(KU16, Take(old(Abs()), 2).1)
    {
      TakeConcat(Abs(), 1, 1);
      hide Take;
      var hi := GetByte();
      var lo := GetByte();
      v := (hi as int) * 0x100 + lo;
      assert [hi] + [lo] == [hi, lo];
    }

    method GetU32() returns (v: Word32)
      requires Valid()
      modifies this
      ensures Valid() && Abs() == Take(old(Abs()), 4).0
      ensures U32(v) == Interpret(KU32, Take(old(Abs()), 4).1)
    {
      ghost var r := Abs();
      TakeConcat(r, 1, 1);
      TakeConcat(r, 2, 1);
      TakeConcat(r, 3, 1);
      hide Take, Interpret;
      var b0 := GetByte();
      var b1 := GetByte();
      assert (Abs(), [b0] + [b1]) == Take(r, 2);
      var b2 := GetByte();
      assert (Abs(), [b0] + [b1] + [b2]) == Take(r, 3);
      var b3 := GetByte();
      assert [b0] + [b1] + [b2] + [b3] == [b0, b1, b2, b3];
      v := (b0 as int) * 0x100_0000 + (b1 as int) * 0x1_0000 + (b2 as int) * 0x100 + b3;
      FourBytes(b0, b1, b2, b3);
    }

    method GetI16() returns (v: Int16)
      requires Valid()
      modifies this
      ensures Valid() && Abs() == Take(old(Abs()), 2).0
      ensures I16(v) == Interpret(KI16, Take(old(Abs()), 2).1)
    {
      var u := GetU16();
      v := ToSigned16(u);
    }

    method GetI32() returns (v: Int32)
      requires Valid()
      modifies this
      ensures Valid() && Abs() == Take(old(Abs()), 4).0
      ensures I32(v) == Interpret(KI32, Take(old(Abs()), 4).1)
    {
      var u := GetU32();
      v := ToSigned32(u);
    }

    /** Fills `dst[..n]`; past the end of the payload it stores zeros. */
    method GetBytes(dst: array<Byte>, n: nat)
      requires Valid() && n <= dst.Length && dst != buf
      modifies this, dst
      ensures Valid()
      ensures (Abs(), dst[..n]) == Take(old(Abs()), n)
      ensures dst[n..] == old(dst[n..])
    {
      ghost var r := Abs();
      assert Take(r, 0) == (r, []) by { TakeNothing(r); }
      hide Take;
      var i := 0;
      while i < n
        invariant 0 <= i <= n
        invariant Valid() && (Abs(), dst[..i]) == Take(r, i)
        invariant dst[n..] == old(dst[n..])
      {
        TakeConcat(r, i, 1);
        var b := GetByte();
        dst[i] := b;
        assert dst[..i + 1] == dst[..i] + [b];
        i := i + 1;
      }
    }

    method Done() returns (done: bool)
      requires Valid()
      ensures done <==> ok && pos == len
    {
      done := ok && pos == len;
    }
  }

  // ---------------------------------------------------------------- whole payloads

  function Serialize(fields: seq<Field>): seq<Byte> {
    if fields == [] then [] else FieldBytes(fields[0]) + Serialize(fields[1..])
  }

  /** A run of put calls, one per field. */
  function PutAll(w: Written, fields: seq<Field>): Written
    requires |w.bytes| <= w.cap
    decreases |fields|
  {
    if fields == [] then w
    else
      PutConcat(w, FieldBytes(fields[0]), []);
      PutAll(Put(w, FieldBytes(fields[0])), fields[1..])
  }

  lemma {:induction false} PutAllIsOnePut(w: Written, fields: seq<Field>)
    requires |w.bytes| <= w.cap
    ensures PutAll(w, fields) == Put(w, Serialize(fields))
    decreases |fields|
  {
    if fields == [] {
      assert w.bytes + [] == w.bytes;
    } else {
      var b := FieldBytes(fields[0]);
      PutConcat(w, b, Serialize(fields[1..]));
      PutAllIsOnePut(Put(w, b), fields[1..]);
    }
  }

  /**
    Whatever fields are written, the buffer holds the longest prefix of their serialisation
    that fits, and `ok` says exactly whether all of it did.
   */
  lemma {:induction false} WriterKeepsPrefix(cap: nat, fields: seq<Field>)
    ensures var w := PutAll(Written([], cap, true), fields);
            var s := Serialize(fields);
            && (w.ok <==> |s| <= cap)
            && w.bytes == if |s| <= cap then s else s[..cap]
  {
    PutAllIsOnePut(Written([], cap, true), fields);
    assert [] + Serialize(fields) == Serialize(fields);
  }

  function TotalSize(kinds: seq<Kind>): nat {
    if kinds == [] then 0 else Size(kinds[0]) + TotalSize(kinds[1..])
  }

  function Kinds(fields: seq<Field>): seq<Kind> {
    if fields == [] then [] else [KindOf(fields[0])] + Kinds(fields[1..])
  }

  /** A run of get calls, one per kind: the fields returned and the reader afterwards. */
  function GetAll(r: Reading, kinds: seq<Kind>): (t: (Reading, seq<Field>))
    requires InRange(r)
    ensures InRange(t.0)
    decreases |kinds|
  {
    if kinds == [] then (r, [])
    else
      var (r1, b) := Take(r, Size(kinds[0]));
      var (r2, rest) := GetAll(r1, kinds[1..]);
      (r2, [Interpret(kinds[0], b)] + rest)
  }

  /** Reading back what was written returns the very fields, and the reader is done. */
  lemma {:induction false} ReadBackFrom(r: Reading, fields: seq<Field>)
    requires InRange(r) && r.ok && r.payload[r.pos..] == Serialize(fields)
    ensures GetAll(r, Kinds(fields)) == (r.(pos := |r.payload|), fields)
    decreases |fields|
  {
    hide Interpret, FieldBytes;
    if fields != [] {
      var f := fields[0];
      var n := Size(KindOf(f));
      InterpretInvertsFieldBytes(f);
      NextField(r.payload[r.pos..], FieldBytes(f), Serialize(fields[1..]));
      TakeNext(r, n);
      hide Take;
      ReadBackFrom(r.(pos := r.pos + n), fields[1..]);
      assert Kinds(fields)[1..] == Kinds(fields[1..]);
      assert [f] + fields[1..] == fields;
    }
  }

  lemma {:induction false} NextField(whole: seq<Byte>, a: seq<Byte>, b: seq<Byte>)
    requires whole == a + b
    ensures whole[..|a|] == a && whole[|a|..] == b
  {
  }

  lemma {:induction false} TakeNext(r: Reading, n: nat)
    requires InRange(r) && r.ok && r.pos + n <= |r.payload|
    ensures Take(r, n) == (r.(pos := r.pos + n), r.payload[r.pos..][..n])
    ensures r.payload[r.pos + n..] == r.payload[r.pos..][n..]
  {
    assert r.payload[r.pos..r.pos + n] == r.payload[r.pos..][..n];
  }

  lemma {:induction false} WriteThenRead(cap: nat, fields: seq<Field>)
    requires PutAll(Written([], cap, true), fields).ok
    ensures var payload := PutAll(Written([], cap, true), fields).bytes;
            var (r, got) := GetAll(Reading(payload, 0, true), Kinds(fields));
            got == fields && r.ok && r.pos == |payload|
  {
    WriterKeepsPrefix(cap, fields);
    var payload := Serialize(fields);
    assert payload[0..] == payload;
    ReadBackFrom(Reading(payload, 0, true), fields);
  }

  /**
    On any payload, short or not, the values read are those of the payload followed by zeros,
    and `ok` says exactly whether no zero was needed.
   */
  lemma {:induction false} ShortPayloadReadsAsZeros(r: Reading, kinds: seq<Kind>, pad: nat)
    requires InRange(r) && r.ok
    requires r.pos + TotalSize(kinds) <= |r.payload| + pad
    ensures var padded := r.(payload := r.payload + ZeroBytes(pad));
            && GetAll(padded, kinds).1 == GetAll(r, kinds).1
            && (GetAll(r, kinds).0.ok <==> r.pos + TotalSize(kinds) <= |r.payload|)
    decreases |kinds|
  {
    if kinds != [] {
      var n := Size(kinds[0]);
      var padded := r.(payload := r.payload + ZeroBytes(pad));
      assert Take(padded, n).1 == Take(r, n).1;
      if r.pos + n <= |r.payload| {
        ShortPayloadReadsAsZeros(Take(r, n).0, kinds[1..], pad);
      } else {
        ZerosFromHere(Take(r, n).0, Take(padded, n).0, kinds[1..]);
      }
    }
  }

  /** A failed reader and one standing in trailing zeros return the same fields. */
  lemma {:induction false} ZerosFromHere(failed: Reading, padded: Reading, kinds: seq<Kind>)
    requires InRange(failed) && !failed.ok
    requires InRange(padded) && padded.ok && padded.pos + TotalSize(kinds) <= |padded.payload|
    requires forall i :: padded.pos <= i < |padded.payload| ==> padded.payload[i] == 0
    ensures GetAll(padded, kinds).1 == GetAll(failed, kinds).1
    ensures !GetAll(failed, kinds).0.ok
    decreases |kinds|
  {
    if kinds != [] {
      var n := Size(kinds[0]);
      assert Take(padded, n).1 == ZeroBytes(n);
      ZerosFromHere(failed, Take(padded, n).0, kinds[1..]);
    }
  }
}
