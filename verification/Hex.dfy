/** Hex text: the encoder, the lenient decoder built on `from_str_radix`, and numeric fields. */
module Hex {
  import opened Bytes

  datatype HexError = OddLength(length: nat) | NotHex(offset: nat, found: string) | WrongLength(expected: nat, found': nat)

  function DigitChar(n: nat): (c: char)
    requires n < 16
  {
    "0123456789abcdef"[n]
  }

  function DigitValue(c: char): (v: Option<nat>)
    ensures v.Some? ==> v.value < 16
  {
    if '0' <= c <= '9' then Some(c as int - '0' as int)
    else if 'a' <= c <= 'f' then Some(c as int - 'a' as int + 10)
    else if 'A' <= c <= 'F' then Some(c as int - 'A' as int + 10)
    else None
  }

  function ByteText(b: u8): (s: string)
    ensures |s| == 2
  {
    [DigitChar(b / 16), DigitChar(b % 16)]
  }

  /** Lowercase hex, two characters a byte. */
  function Encoded(bytes: seq<u8>): (s: string)
    ensures |s| == 2 * |bytes|
  {
    if bytes == [] then "" else ByteText(bytes[0]) + Encoded(bytes[1..])
  }

  method Encode(bytes: seq<u8>) returns (out: string)
    ensures out == Encoded(bytes)
  {
    out := "";
    for i := 0 to |bytes|
      invariant out + Encoded(bytes[i..]) == Encoded(bytes)
    {
      assert bytes[i..][1..] == bytes[i + 1..];
      Assoc(out, ByteText(bytes[i]), Encoded(bytes[i + 1..]));
      out := out + ByteText(bytes[i]);
    }
  }

  /** Digits accumulated from the left; a value reaching `limit` is an error, as is a non-digit. */
  function ParseDigits(s: string, acc: nat, limit: nat): (v: Option<nat>)
    decreases |s|
  {
    if s == "" then Some(acc) else
    match DigitValue(s[0])
    case None => None
    case Some(d) => if 16 * acc + d >= limit then None else ParseDigits(s[1..], 16 * acc + d, limit)
  }

  /** `from_str_radix(s, 16)` on an unsigned type: one leading plus sign is accepted. */
  function FromStrRadix(s: string, limit: nat): Option<nat> {
    if s == "" || s == "+" || s == "-" then None
    else if s[0] == '+' then ParseDigits(s[1..], 0, limit)
    else ParseDigits(s, 0, limit)
  }

  lemma {:induction false} ParseDigitsBound(s: string, acc: nat, limit: nat)
    requires acc < limit
    ensures ParseDigits(s, acc, limit).Some? ==> ParseDigits(s, acc, limit).value < limit
    decreases |s|
  {
    if s != "" && DigitValue(s[0]).Some? && 16 * acc + DigitValue(s[0]).value < limit {
      ParseDigitsBound(s[1..], 16 * acc + DigitValue(s[0]).value, limit);
    }
  }

  lemma FromStrRadixBound(s: string, limit: nat)
    requires limit > 0
    ensures FromStrRadix(s, limit).Some? ==> FromStrRadix(s, limit).value < limit
  {
    if s != "" {
      ParseDigitsBound(s, 0, limit);
      ParseDigitsBound(s[1..], 0, limit);
    }
  }

  function ByteFromText(s: string): Option<u8> {
    FromStrRadixBound(s, 256);
    match FromStrRadix(s, 256)
    case None => None
    case Some(v) => Some(v)
  }

  function DecodePairs(s: string, at: nat): (r: Result<seq<u8>, HexError>)
    requires at <= |s| && (|s| - at) % 2 == 0
    decreases |s| - at
  {
    if at == |s| then Ok([]) else
    match ByteFromText(s[at..at + 2])
    case None => Err(NotHex(at, s[at..at + 2]))
    case Some(b) =>
      var rest :- DecodePairs(s, at + 2);
      Ok([b] + rest)
  }

  function Decoded(s: string): Result<seq<u8>, HexError> {
    if |s| % 2 != 0 then Err(OddLength(|s|)) else DecodePairs(s, 0)
  }

  function DecodedArray(s: string, n: nat): Result<seq<u8>, HexError> {
    var bytes :- Decoded(s);
    if |bytes| == n then Ok(bytes) else Err(WrongLength(n, |bytes|))
  }

  /** A 32-bit number as eight hex digits, most significant first. */
  function U32Text(v: u32): string { Encoded(BigEndian(v, 4)) }

  function U32FromText(s: string): Option<u32> {
    FromStrRadixBound(s, 0x1_0000_0000);
    match FromStrRadix(s, 0x1_0000_0000)
    case None => None
    case Some(v) => Some(v)
  }

  // ---------------------------------------------------------------- round trips

  lemma DigitInverse(n: nat)
    requires n < 16
    ensures DigitValue(DigitChar(n)) == Some(n) && DigitChar(n) != '+' && DigitChar(n) != '-'
  {
  }

  /** Two digits shift the accumulator by one byte. */
  lemma ParseByte(b: u8, rest: string, acc: nat, limit: nat)
    requires 256 * acc + b < limit
    ensures ParseDigits(ByteText(b) + rest, acc, limit) == ParseDigits(rest, 256 * acc + b, limit)
  {
    hide DigitValue, DigitChar;
    DigitInverse(b / 16);
    DigitInverse(b % 16);
    var text := ByteText(b) + rest;
    assert text[1..] == [DigitChar(b % 16)] + rest;
    assert text[1..][1..] == rest;
  }

  lemma ByteInverse(b: u8)
    ensures ByteFromText(ByteText(b)) == Some(b)
  {
    DigitInverse(b / 16);
    ParseByte(b, "", 0, 256);
    assert ByteText(b) + "" == ByteText(b);
  }

  lemma {:induction false} DecodePairsInverse(s: string, at: nat, bytes: seq<u8>)
    requires at <= |s| && s[at..] == Encoded(bytes)
    ensures DecodePairs(s, at) == Ok(bytes)
    decreases |bytes|
  {
    hide ByteFromText, ByteText;
    if bytes != [] {
      assert s[at..at + 2] == s[at..][..2] == ByteText(bytes[0]);
      assert s[at + 2..] == s[at..][2..] == Encoded(bytes[1..]);
      ByteInverse(bytes[0]);
      DecodePairsInverse(s, at + 2, bytes[1..]);
      assert [bytes[0]] + bytes[1..] == bytes;
    } else {
      assert |s[at..]| == 0;
    }
  }

  lemma {:induction false} EncodedConcat(a: seq<u8>, b: seq<u8>)
    ensures Encoded(a + b) == Encoded(a) + Encoded(b)
  {
    hide ByteText;
    if a == [] {
      assert a + b == b;
    } else {
      assert (a + b)[1..] == a[1..] + b;
      EncodedConcat(a[1..], b);
    }
  }

  /** Decoding undoes encoding. */
  lemma DecodeEncoded(bytes: seq<u8>)
    ensures Decoded(Encoded(bytes)) == Ok(bytes)
    ensures DecodedArray(Encoded(bytes), |bytes|) == Ok(bytes)
  {
    hide Encoded, DecodePairs;
    var s := Encoded(bytes);
    assert s[0..] == s;
    DecodePairsInverse(s, 0, bytes);
  }

  /** Numeric fields survive the wire. */
  lemma U32TextInverse(v: u32)
    ensures U32FromText(U32Text(v)) == Some(v)
  {
    hide ByteText, ParseDigits;
    var b := BigEndian(v, 4);
    Pow256Values();
    BigEndianDecodes(v, 4);
    var b0: nat, b1: nat, b2: nat, b3: nat := b[0], b[1], b[2], b[3];
    FourByteValue(b[0], b[1], b[2], b[3]);
    assert b == [b[0], b[1], b[2], b[3]];
    assert b[1..][1..][1..] == [b[3]] && b[1..][1..] == [b[2], b[3]] && b[1..] == [b[1], b[2], b[3]];
    FourByteText(b[0], b[1], b[2], b[3]);
    var limit := 0x1_0000_0000;
    ParseByte(b[0], ByteText(b[1]) + (ByteText(b[2]) + (ByteText(b[3]) + "")), 0, limit);
    ParseByte(b[1], ByteText(b[2]) + (ByteText(b[3]) + ""), b0, limit);
    ParseByte(b[2], ByteText(b[3]) + "", 256 * b0 + b1, limit);
    ParseByte(b[3], "", 256 * (256 * b0 + b1) + b2, limit);
    ParseNothing(v, limit);
    FirstCharacter(b[0]);
  }

  lemma ParseNothing(acc: nat, limit: nat)
    ensures ParseDigits("", acc, limit) == Some(acc)
  {
  }

  lemma FirstCharacter(b: u8)
    ensures |ByteText(b)| == 2 && ByteText(b)[0] != '+'
  {
    DigitInverse(b / 16);
  }

  lemma FourByteText(b0: u8, b1: u8, b2: u8, b3: u8)
    ensures Encoded([b0, b1, b2, b3]) == ByteText(b0) + (ByteText(b1) + (ByteText(b2) + (ByteText(b3) + "")))
  {
    hide ByteText;
    assert [b0, b1, b2, b3][1..] == [b1, b2, b3];
    assert [b1, b2, b3][1..] == [b2, b3];
    assert [b2, b3][1..] == [b3];
    assert Encoded([b3]) == ByteText(b3) + "";
    assert Encoded([b2, b3]) == ByteText(b2) + Encoded([b3]);
    assert Encoded([b1, b2, b3]) == ByteText(b1) + Encoded([b2, b3]);
    assert Encoded([b0, b1, b2, b3]) == ByteText(b0) + Encoded([b1, b2, b3]);
  }

  lemma FourByteValue(b0: u8, b1: u8, b2: u8, b3: u8)
    ensures FromBigEndian([b0, b1, b2, b3]) == 256 * (256 * (256 * b0 as nat + b1) + b2) + b3
  {
    var s: seq<u8> := [b0, b1, b2, b3];
    assert s[..3] == [b0, b1, b2] && s[..3][..2] == [b0, b1] && s[..3][..2][..1] == [b0];
    assert FromBigEndian(s[..3][..2][..1]) == b0;
    assert FromBigEndian(s[..3][..2]) == 256 * b0 as nat + b1;
    assert FromBigEndian(s[..3]) == 256 * (256 * b0 as nat + b1) + b2;
  }

  // ---------------------------------------------------------------- what the decoder really accepts

  predicate IsDigit(c: char) { DigitValue(c).Some? }

  /** A pair the decoder reads: two hex digits, or, contrary to its documentation, a plus sign and one digit. */
  predicate PairAccepted(c0: char, c1: char) { IsDigit(c1) && (IsDigit(c0) || c0 == '+') }

  lemma PlusIsNoDigit()
    ensures DigitValue('+') == None && DigitValue('-') == None
  {
  }

  lemma ParseOne(s: string, acc: nat, limit: nat)
    requires |s| == 1 && 16 * acc + 15 < limit
    ensures ParseDigits(s, acc, limit).Some? <==> IsDigit(s[0])
  {
    assert s[1..] == "";
    if IsDigit(s[0]) {
      ParseNothing(16 * acc + DigitValue(s[0]).value, limit);
    }
  }

  lemma ByteFromTextIff(s: string)
    requires |s| == 2
    ensures ByteFromText(s).Some? <==> PairAccepted(s[0], s[1])
  {
    hide DigitValue;
    PlusIsNoDigit();
    assert s[1..][1..] == "";
    ParseOne(s[1..], 0, 256);
    if DigitValue(s[0]).Some? {
      ParseOne(s[1..], DigitValue(s[0]).value, 256);
    }
  }

  lemma {:induction false} DecodePairsIff(s: string, at: nat)
    requires at <= |s| && (|s| - at) % 2 == 0
    ensures DecodePairs(s, at).Ok? <==>
            forall i {:trigger s[i]} :: at <= i < |s| && (i - at) % 2 == 0 ==> PairAccepted(s[i], s[i + 1])
    decreases |s| - at
  {
    hide ByteFromText, PairAccepted;
    if at < |s| {
      ByteFromTextIff(s[at..at + 2]);
      DecodePairsIff(s, at + 2);
      if PairAccepted(s[at], s[at + 1]) && DecodePairs(s, at + 2).Ok? {
        forall i | at <= i < |s| && (i - at) % 2 == 0 ensures PairAccepted(s[i], s[i + 1]) {
          if i > at {
            assert (i - (at + 2)) % 2 == 0;
          }
        }
      }
      if DecodePairs(s, at).Ok? {
        assert PairAccepted(s[at], s[at + 1]);
      } else if !PairAccepted(s[at], s[at + 1]) {
      } else {
        var i :| at + 2 <= i < |s| && (i - (at + 2)) % 2 == 0 && !PairAccepted(s[i], s[i + 1]);
        assert (i - at) % 2 == 0;
      }
    }
  }

  /** Exactly which text decodes. */
  lemma DecodedIff(s: string)
    ensures Decoded(s).Ok? <==>
            |s| % 2 == 0 && forall i {:trigger s[i]} :: 0 <= i < |s| && i % 2 == 0 ==> PairAccepted(s[i], s[i + 1])
  {
    if |s| % 2 == 0 {
      DecodePairsIff(s, 0);
    }
  }

  /** The plus sign is not a hex character, yet this text decodes, and to the same byte as another. */
  lemma PlusIsAccepted()
    ensures Decoded("+5") == Ok([5]) == Decoded("05")
  {
    assert Encoded([5]) == "05";
    DecodeEncoded([5]);
    assert "+5"[0..2] == "+5" && "+5"[1..] == "5" && "5"[1..] == "";
    assert DecodePairs("+5", 2) == Ok([]);
    assert ParseDigits("5", 0, 256) == Some(5);
    assert [5 as u8] + [] == [5];
  }
}
