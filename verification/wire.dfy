/** Wire-level constants of the Java Object Serialization Stream Protocol
    (section 6.4.2 of the Java Object Serialization Specification) and the
    big-endian number codecs the records are built from. */
module Wire {

  /** An octet of the stream. Bit operations convert to bv8 where they are needed. */
  newtype byte = x: int | 0 <= x < 0x100

  // Tag bytes that open a record.
  const TC_NULL: byte := 0x70
  const TC_REFERENCE: byte := 0x71
  const TC_CLASSDESC: byte := 0x72
  const TC_OBJECT: byte := 0x73
  const TC_ENDBLOCKDATA: byte := 0x78

  /** The handle given to the first referenceable record of a stream. */
  const BASE_WIRE_HANDLE: nat := 0x7E0000

  // Class-descriptor flag bits.
  const SC_WRITE_METHOD: byte := 0x01
  const SC_SERIALIZABLE: byte := 0x02
  const SC_EXTERNALIZABLE: byte := 0x04
  const SC_BLOCK_DATA: byte := 0x08

  newtype int64 = x: int | -0x8000_0000_0000_0000 <= x < 0x8000_0000_0000_0000
  newtype uint32 = x: int | 0 <= x < 0x1_0000_0000

  function Pow256(n: nat): (p: nat)
    ensures p > 0
  {
    if n == 0 then 1 else 256 * Pow256(n - 1)
  }

  lemma Pow256Widths()
    ensures Pow256(2) == 0x1_0000
    ensures Pow256(4) == 0x1_0000_0000
    ensures Pow256(8) == 0x1_0000_0000_0000_0000
  {
    assert Pow256(1) == 0x100;
    assert Pow256(2) == 0x1_0000;
    assert Pow256(3) == 0x100_0000;
    assert Pow256(4) == 0x1_0000_0000;
    assert Pow256(6) == 0x1_0000_0000_0000;
  }

  /** The unsigned value of a big-endian byte string. */
  function BigEndian(bs: seq<byte>): (v: nat)
    ensures v < Pow256(|bs|)
  {
    if |bs| == 0 then 0
    else
      var high := BigEndian(bs[..|bs| - 1]);
      assert high * 256 + 255 < Pow256(|bs|) by {
        assert high + 1 <= Pow256(|bs| - 1);
        assert (high + 1) * 256 <= Pow256(|bs| - 1) * 256;
      }
      high * 256 + bs[|bs| - 1] as nat
  }

  /** The n-byte big-endian encoding of v (the source's NumberToBytes). */
  function BigEndianBytes(n: nat, v: nat): (bs: seq<byte>)
    requires v < Pow256(n)
    ensures |bs| == n && BigEndian(bs) == v
  {
    if n == 0 then []
    else
      DivideByRadix(v, Pow256(n - 1));
      var high := BigEndianBytes(n - 1, v / 256);
      var low := LowByte(v);
      assert (high + [low])[..n - 1] == high;
      high + [low]
  }

  lemma DivideByRadix(v: nat, p: nat)
    requires v < 256 * p
    ensures v / 256 < p && (v / 256) * 256 + v % 256 == v
  {
  }

  lemma DigitsOf(high: nat, low: nat)
    requires low < 256
    ensures (high * 256 + low) / 256 == high && (high * 256 + low) % 256 == low
  {
  }

  /** The least significant byte of v. */
  function LowByte(v: nat): (b: byte)
    ensures b as nat == v % 256
  {
    (v % 256) as byte
  }

  lemma LowByteOf(b: byte)
    ensures LowByte(b as nat) == b
  {
    assert (b as nat) % 256 == b as nat;
    assert (b as nat) as byte == b;
  }

  /** Decoding then re-encoding a big-endian string gives the same bytes back. */
  lemma {:induction false} BigEndianBytesOf(bs: seq<byte>)
    ensures BigEndianBytes(|bs|, BigEndian(bs)) == bs
  {
    if |bs| > 0 {
      var init := bs[..|bs| - 1];
      var last := bs[|bs| - 1];
      BigEndianBytesOf(init);
      var v := BigEndian(bs);
      assert v == BigEndian(init) * 256 + last as nat;
      DigitsOf(BigEndian(init), last as nat);
      LowByteOf(last);
      assert bs == init + [last];
    }
  }

  /** The two bytes of a field count; the count is truncated to 16 bits
      as the source's uint16 conversion does. */
  function FieldCountBytes(count: nat): (bs: seq<byte>)
    ensures |bs| == 2
  {
    Pow256Widths();
    BigEndianBytes(2, count % 0x1_0000)
  }

  /** A field count is written as its value modulo 2^16. */
  lemma FieldCountValue(count: nat)
    ensures BigEndian(FieldCountBytes(count)) == count % 0x1_0000
  {
    Pow256Widths();
  }

  /** Any two bytes re-encode to themselves after being read as a field count. */
  lemma FieldCountBytesOf(bs: seq<byte>)
    requires |bs| == 2
    ensures FieldCountBytes(BigEndian(bs)) == bs
  {
    var v := BigEndian(bs);
    Pow256Widths();
    assert v % 0x1_0000 == v;
    BigEndianBytesOf(bs);
  }

  /** The eight bytes of a 64-bit version identifier, in two's complement. */
  function Int64Bytes(v: int64): (bs: seq<byte>)
    ensures |bs| == 8
  {
    Pow256Widths();
    BigEndianBytes(8, (v as int) % 0x1_0000_0000_0000_0000)
  }

  /** Eight big-endian bytes read as an unsigned 64-bit number and
      reinterpreted as a signed one. */
  function Int64FromBytes(bs: seq<byte>): (v: int64)
    requires |bs| == 8
  {
    Pow256Widths();
    var u := BigEndian(bs);
    if u < 0x8000_0000_0000_0000 then u as int64 else (u - 0x1_0000_0000_0000_0000) as int64
  }

  /** Int64Bytes writes the two's complement of v: v itself when it is not
      negative, v + 2^64 when it is. */
  lemma Int64BytesValue(v: int64)
    ensures v >= 0 ==> BigEndian(Int64Bytes(v)) == v as int
    ensures v < 0 ==> BigEndian(Int64Bytes(v)) == v as int + 0x1_0000_0000_0000_0000
  {
    Pow256Widths();
  }

  /** Reading a version identifier back from its encoding gives the same value. */
  lemma Int64RoundTrip(v: int64)
    ensures Int64FromBytes(Int64Bytes(v)) == v
  {
    Int64BytesValue(v);
  }

  /** Any eight bytes re-encode to themselves after being read as a version identifier. */
  lemma Int64BytesOf(bs: seq<byte>)
    requires |bs| == 8
    ensures Int64Bytes(Int64FromBytes(bs)) == bs
  {
    Pow256Widths();
    var v := Int64FromBytes(bs);
    assert (v as int) % 0x1_0000_0000_0000_0000 == BigEndian(bs);
    BigEndianBytesOf(bs);
  }
}
