/**
 * The type-length-value attribute decoder of the reply handler
 * (UdpPpClient.DatagramClient.getPaddedLength and the decoding part of
 * onResponse).  The layout is that of section 15 of RFC 5389: a 16-bit
 * type, a 16-bit length, and a value padded with zero bytes to a multiple
 * of four bytes.
 */
module AttributeDecoder {

  /** An octet: the bit pattern of a Java byte, read as unsigned. */
  newtype Byte = b: int | 0 <= b < 256

  /** A sequence of n zero bytes. */
  function Zeros(n: nat): (z: seq<Byte>)
    ensures |z| == n
    ensures forall i :: 0 <= i < n ==> z[i] == 0
  {
    seq(n, _ => 0)
  }

  /** Bytes.twoBytesToInt: the unsigned big-endian value of two bytes. */
  function TwoBytesToInt(hi: Byte, lo: Byte): (n: nat)
    ensures n < 0x1_0000
  {
    hi as int * 256 + lo as int
  }

  /** The two big-endian bytes of a 16-bit value (the encoder's side). */
  function IntToTwoBytes(n: nat): (bs: seq<Byte>)
    requires n < 0x1_0000
    ensures |bs| == 2
  {
    [(n / 256) as Byte, (n % 256) as Byte]
  }

  /** Writing a 16-bit value as two bytes and reading them back gives the value. */
  lemma IntToTwoBytesRoundTrip(n: nat)
    requires n < 0x1_0000
    ensures TwoBytesToInt(IntToTwoBytes(n)[0], IntToTwoBytes(n)[1]) == n
  {
  }

  /** Reading two bytes and writing the value back gives the same bytes: the first is the high byte. */
  lemma TwoBytesToIntRoundTrip(hi: Byte, lo: Byte)
    ensures IntToTwoBytes(TwoBytesToInt(hi, lo)) == [hi, lo]
  {
  }

  /**
   * getPaddedLength: the length rounded up to the next multiple of four.
   * The source only calls it with a decoded 16-bit length, which is never
   * negative, so Java's truncating remainder agrees with Dafny's here.
   */
  function PaddedLength(length: nat): (p: nat)
    ensures p % 4 == 0
    ensures length <= p < length + 4
  {
    var remainder := length % 4;
    if remainder == 0 then length else length + 4 - remainder
  }

  /** No padding is added exactly when the length is already aligned. */
  lemma PaddedLengthExact(length: nat)
    ensures PaddedLength(length) == length <==> length % 4 == 0
  {
  }

  /** Padding an already padded length changes nothing. */
  lemma PaddedLengthIdempotent(length: nat)
    ensures PaddedLength(PaddedLength(length)) == PaddedLength(length)
  {
  }

  /** The padded length is the least multiple of four not below the length. */
  lemma PaddedLengthLeast(length: nat, m: nat)
    requires m % 4 == 0 && length <= m
    ensures PaddedLength(length) <= m
  {
  }

  /** An attribute as handed to the attribute factory. */
  datatype RawAttribute = RawAttribute(attrType: nat, length: nat, value: seq<Byte>)

  /**
   * What onResponse needs of its input to run without an index
   * exception: four header bytes and the declared number of value bytes.
   */
  predicate Decodable(data: seq<Byte>)
  {
    4 <= |data| && 4 + TwoBytesToInt(data[2], data[3]) <= |data|
  }

  /**
   * The attribute onResponse decodes: the type from bytes 0-1, the length
   * from bytes 2-3, and a value buffer of the padded length holding the
   * declared bytes from offset 4 followed by zeros.
   */
  function Decoded(data: seq<Byte>): (a: RawAttribute)
    requires Decodable(data)
    ensures a.attrType == TwoBytesToInt(data[0], data[1])
    ensures a.length == TwoBytesToInt(data[2], data[3])
    ensures |a.value| == PaddedLength(a.length)
    ensures a.value[..a.length] == data[4..4 + a.length]
    ensures forall i :: a.length <= i < |a.value| ==> a.value[i] == 0
  {
    var attrType := TwoBytesToInt(data[0], data[1]);
    var length := TwoBytesToInt(data[2], data[3]);
    var value := if length > 0 then data[4..4 + length] + Zeros(PaddedLength(length) - length) else [];
    RawAttribute(attrType, length, value)
  }

  /**
   * The attribute layout of section 15 of RFC 5389, as a server writes it:
   * type, length, value, then zero bytes up to a multiple of four.
   */
  function Encode(attrType: nat, value: seq<Byte>): (bytes: seq<Byte>)
    requires attrType < 0x1_0000 && |value| < 0x1_0000
    ensures |bytes| == 4 + PaddedLength(|value|)
  {
    IntToTwoBytes(attrType) + IntToTwoBytes(|value|) + value + Zeros(PaddedLength(|value|) - |value|)
  }

  /** Decoding an encoded attribute gives back its type, length and padded value. */
  lemma DecodeEncode(attrType: nat, value: seq<Byte>)
    requires attrType < 0x1_0000 && |value| < 0x1_0000
    ensures Decodable(Encode(attrType, value))
    ensures Decoded(Encode(attrType, value))
         == RawAttribute(attrType, |value|, value + Zeros(PaddedLength(|value|) - |value|))
  {
    var bytes := Encode(attrType, value);
    var hdr := IntToTwoBytes(attrType) + IntToTwoBytes(|value|);
    assert bytes == hdr + (value + Zeros(PaddedLength(|value|) - |value|));
    IntToTwoBytesRoundTrip(attrType);
    IntToTwoBytesRoundTrip(|value|);
    assert bytes[4..4 + |value|] == value;
    var a := Decoded(bytes);
    assert a.value == value + Zeros(PaddedLength(|value|) - |value|);
  }

  /**
   * The decoded attribute depends only on the header and the declared
   * value bytes: whatever the input holds where the padding goes, the
   * padding of the value buffer is zero.
   */
  lemma DecodedIgnoresTrailingBytes(data: seq<Byte>, other: seq<Byte>)
    requires Decodable(data) && Decodable(other)
    requires 4 + TwoBytesToInt(data[2], data[3]) <= |other|
    requires data[..4 + TwoBytesToInt(data[2], data[3])] == other[..4 + TwoBytesToInt(data[2], data[3])]
    ensures Decoded(data) == Decoded(other)
  {
    var n := 4 + TwoBytesToInt(data[2], data[3]);
    assert forall i :: 0 <= i < n ==> data[i] == data[..n][i] == other[..n][i] == other[i];
    assert data[4..n] == other[4..n];
  }

  /**
   * The decoding step of onResponse on the received byte array: reads the
   * type and the length through a cursor, allocates a zero-filled value
   * buffer of the padded length and copies exactly the declared bytes into
   * it, so that the padding stays zero.
   */
  method DecodeAttribute(messageData: array<Byte>) returns (attrType: nat, length: nat, valueData: array<Byte>)
    requires Decodable(messageData[..])
    ensures fresh(valueData)
    ensures RawAttribute(attrType, length, valueData[..]) == Decoded(messageData[..])
  {
    var currentByte := 0;
    var b0 := messageData[currentByte];
    currentByte := currentByte + 1;
    var b1 := messageData[currentByte];
    currentByte := currentByte + 1;
    attrType := TwoBytesToInt(b0, b1);
    var b2 := messageData[currentByte];
    currentByte := currentByte + 1;
    var b3 := messageData[currentByte];
    currentByte := currentByte + 1;
    length := TwoBytesToInt(b2, b3);

    if length > 0 {
      var paddedLength := PaddedLength(length);
      valueData := new Byte[paddedLength](_ => 0);
      // copy exactly `length` bytes, starting at the cursor (offset 4), to the front of the buffer
      forall i | 0 <= i < length {
        valueData[i] := messageData[currentByte + i];
      }
    } else {
      valueData := new Byte[0];
    }
    ghost var a := Decoded(messageData[..]);
    assert valueData[..] == a.value by {
      assert |valueData[..]| == |a.value|;
      forall i | 0 <= i < |a.value|
        ensures valueData[..][i] == a.value[i]
      {
        if i < length {
          assert a.value[..length][i] == messageData[..][4..4 + length][i];
        }
      }
    }
  }
}
