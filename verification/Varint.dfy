/** Bitcoin's CompactSize integers. */
module Varint {
  import opened Bytes

  datatype VarIntError = UnexpectedEnd | NonCanonical

  /** The CompactSize form of `value`. */
  function Encoding(value: u64): (s: seq<u8>)
    ensures |s| == EncodedLen(value)
  {
    if value <= 0xFC then [value]
    else if value <= 0xFFFF then [0xFD] + LittleEndian(value, 2)
    else if value <= 0xFFFF_FFFF then [0xFE] + LittleEndian(value, 4)
    else [0xFF] + LittleEndian(value, 8)
  }

  function EncodedLen(value: u64): (n: nat) {
    if value <= 0xFC then 1 else if value <= 0xFFFF then 3 else if value <= 0xFFFF_FFFF then 5 else 9
  }

  /** Appends `value` to `out`. */
  method Encode(value: u64, out: seq<u8>) returns (longer: seq<u8>)
    ensures longer == out + Encoding(value)
  {
    hide LittleEndian;
    longer := out;
    if value <= 0xFC {
      longer := longer + [value];
    } else if value <= 0xFFFF {
      longer := longer + [0xFD];
      longer := longer + LittleEndian(value % 0x1_0000, 2);
      Assoc(out, [0xFD], LittleEndian(value, 2));
    } else if value <= 0xFFFF_FFFF {
      longer := longer + [0xFE];
      longer := longer + LittleEndian(value % 0x1_0000_0000, 4);
      Assoc(out, [0xFE], LittleEndian(value, 4));
    } else {
      longer := longer + [0xFF];
      longer := longer + LittleEndian(value, 8);
      Assoc(out, [0xFF], LittleEndian(value, 8));
    }
  }

  function ReadLe(bytes: seq<u8>, width: nat): (r: Result<nat, VarIntError>) {
    if 1 + width <= |bytes| then Ok(FromLittleEndian(bytes[1..1 + width])) else Err(UnexpectedEnd)
  }

  /** The value at the front of `bytes` and how many bytes it occupied. */
  function Decode(bytes: seq<u8>): (r: Result<(u64, nat), VarIntError>)
    ensures r.Ok? ==> 1 <= r.value.1 <= |bytes|
  {
    if bytes == [] then Err(UnexpectedEnd)
    else if bytes[0] <= 0xFC then Ok((bytes[0], 1))
    else if bytes[0] == 0xFD then
      var value :- ReadLe(bytes, 2);
      if value < 0xFD then Err(NonCanonical) else
      LittleEndianBound(bytes[1..3]); Pow256Values();
      Ok((value, 3))
    else if bytes[0] == 0xFE then
      var value :- ReadLe(bytes, 4);
      if value <= 0xFFFF then Err(NonCanonical) else
      LittleEndianBound(bytes[1..5]); Pow256Values();
      Ok((value, 5))
    else
      var value :- ReadLe(bytes, 8);
      if value <= 0xFFFF_FFFF then Err(NonCanonical) else
      LittleEndianBound(bytes[1..9]); Pow256Values();
      Ok((value, 9))
  }

  lemma DecodeEncoding(value: u64, rest: seq<u8>)
    ensures Decode(Encoding(value) + rest) == Ok((value, EncodedLen(value)))
  {
    var s := Encoding(value) + rest;
    Pow256Values();
    if value > 0xFC {
      var width := EncodedLen(value) - 1;
      assert s[1..1 + width] == LittleEndian(value, width);
      LittleEndianDecodes(value, width);
    }
  }

  /** Canonicity: only the encoder's own output is accepted, so the encoding of a value is unique. */
  lemma DecodeIsCanonical(bytes: seq<u8>)
    requires Decode(bytes).Ok?
    ensures var (value, used) := Decode(bytes).value;
            used == EncodedLen(value) && bytes[..used] == Encoding(value)
  {
    var (value, used) := Decode(bytes).value;
    Pow256Values();
    if bytes[0] > 0xFC {
      LittleEndianEncodes(bytes[1..used]);
      LittleEndianBound(bytes[1..used]);
      assert bytes[..used] == [bytes[0]] + bytes[1..used];
    }
  }

  /** Exactly the two ways a decode fails: the input stops early, or a shorter form existed. */
  lemma DecodeErrors(bytes: seq<u8>)
    ensures Decode(bytes) == Err(UnexpectedEnd) <==>
            bytes == [] || |bytes| < (if bytes[0] <= 0xFC then 1 else if bytes[0] == 0xFD then 3
                                      else if bytes[0] == 0xFE then 5 else 9)
    ensures Decode(bytes).Ok? <==> exists value: u64 :: Encoding(value) <= bytes
  {
    if Decode(bytes).Ok? {
      DecodeIsCanonical(bytes);
      assert Encoding(Decode(bytes).value.0) <= bytes;
    }
    if value: u64 :| Encoding(value) <= bytes {
      DecodeEncoding(value, bytes[|Encoding(value)|..]);
      assert bytes == Encoding(value) + bytes[|Encoding(value)|..];
    }
  }

  /** The size classes up to two bytes at their exact boundaries, byte for byte. */
  lemma Boundaries()
    ensures Encoding(0) == [0x00] && Encoding(0xFC) == [0xFC]
    ensures Encoding(0xFD) == [0xFD, 0xFD, 0x00] && Encoding(0xFFFF) == [0xFD, 0xFF, 0xFF]
  {
    hide LittleEndian, FromLittleEndian;
    TwoBytes(0xFD, 0x00);
    TwoBytes(0xFF, 0xFF);
  }

  /** The classes of four and eight bytes. */
  lemma WideBoundaries()
    ensures Encoding(0x1_0000) == [0xFE, 0x00, 0x00, 0x01, 0x00]
    ensures Encoding(0xFFFF_FFFF) == [0xFE, 0xFF, 0xFF, 0xFF, 0xFF]
    ensures Encoding(0x1_0000_0000) == [0xFF, 0x00, 0x00, 0x00, 0x00, 0x01, 0x00, 0x00, 0x00]
  {
    hide LittleEndian, FromLittleEndian;
    FourBytes(0x00, 0x00, 0x01, 0x00);
    FourBytes(0xFF, 0xFF, 0xFF, 0xFF);
    OneInFour();
    EightBytes(0x00, 0x00, 0x00, 0x00, [0x01, 0x00, 0x00, 0x00]);
    assert Encoding(0x1_0000_0000) == [0xFF] + ([0x00, 0x00, 0x00, 0x00] + [0x01, 0x00, 0x00, 0x00]);
  }

  lemma OneInFour()
    ensures FromLittleEndian([0x01, 0x00, 0x00, 0x00]) == 1
  {
    FourBytes(0x01, 0x00, 0x00, 0x00);
    Pow256Values();
    LittleEndianDecodes(1, 4);
  }
}
