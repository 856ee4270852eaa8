/** The script pieces a coinbase needs: minimal pushes and script numbers. */
module Script {
  import opened Bytes
  import Hash256

  const OP_0: u8 := 0x00
  const OP_PUSHDATA1: u8 := 0x4C
  const OP_PUSHDATA2: u8 := 0x4D
  const OP_1: u8 := 0x51
  const OP_16: u8 := 0x60

  /** Script's maximum element size; a longer push panics. */
  const MAX_PUSH := 520

  function PushPrefix(length: nat): seq<u8>
    requires length <= MAX_PUSH
  {
    if length <= 75 then [length]
    else if length <= 255 then [OP_PUSHDATA1, length]
    else [OP_PUSHDATA2] + LittleEndian(length, 2)
  }

  function Push(data: seq<u8>): seq<u8>
    requires |data| <= MAX_PUSH
  {
    PushPrefix(|data|) + data
  }

  method PushData(data: seq<u8>, out: seq<u8>) returns (longer: seq<u8>)
    requires |data| <= MAX_PUSH
    ensures longer == out + Push(data)
  {
    longer := out;
    if |data| <= 75 {
      longer := longer + [|data|];
    } else if |data| <= 255 {
      longer := longer + [OP_PUSHDATA1];
      longer := longer + [|data|];
      assert longer == out + [OP_PUSHDATA1, |data|];
    } else {
      longer := longer + [OP_PUSHDATA2];
      longer := longer + LittleEndian(|data|, 2);
      Assoc(out, [OP_PUSHDATA2], LittleEndian(|data|, 2));
    }
    Assoc(out, PushPrefix(|data|), data);
    longer := longer + data;
  }

  /** The bytes of `value`, least significant first, without leading zeros. */
  function Digits(value: nat): (s: seq<u8>)
    decreases value
  {
    if value == 0 then [] else [value % 256] + Digits(value / 256)
  }

  function Padded(digits: seq<u8>): seq<u8> {
    if digits != [] && digits[|digits| - 1] >= 0x80 then digits + [0x00] else digits
  }

  /** A non-negative script number. */
  function Number(value: u32): seq<u8> { Padded(Digits(value)) }

  method EncodeScriptNumber(value: u32) returns (encoded: seq<u8>)
    ensures encoded == Number(value)
  {
    if value == 0 {
      return [];
    }
    encoded := [];
    var left := value;
    while left > 0
      invariant encoded + Digits(left) == Digits(value)
      decreases left
    {
      Assoc(encoded, [left % 256], Digits(left / 256));
      encoded := encoded + [left % 256];
      left := left / 256;
    }
    if encoded[|encoded| - 1] >= 0x80 {
      encoded := encoded + [0x00];
    }
  }

  /** The height prefix: one opcode up to 16, then a push of the script number. */
  function BlockHeight(height: u32): seq<u8> {
    NumberLength(height);
    if height == 0 then [OP_0] else if height <= 16 then [OP_1 + height - 1] else Push(Number(height))
  }

  method EncodeBlockHeight(height: u32) returns (script: seq<u8>)
    ensures script == BlockHeight(height)
  {
    if height == 0 {
      return [OP_0];
    }
    if height <= 16 {
      return [OP_1 + height - 1];
    }
    NumberLength(height);
    var number := EncodeScriptNumber(height);
    script := PushData(number, []);
    assert [] + Push(number) == Push(number);
  }

  // ---------------------------------------------------------------- script numbers

  /** What a byte string means as a script number: little-endian magnitude, sign in the top bit. */
  function NumberValue(s: seq<u8>): int {
    if s == [] then 0 else
    var top := s[|s| - 1];
    var magnitude := FromLittleEndian(s[..|s| - 1]) + top % 0x80 * Pow256(|s| - 1);
    if top >= 0x80 then -magnitude else magnitude
  }

  lemma {:induction false} LastDigitValue(s: seq<u8>)
    requires s != []
    ensures FromLittleEndian(s) == FromLittleEndian(s[..|s| - 1]) + s[|s| - 1] * Pow256(|s| - 1)
  {
    if |s| > 1 {
      LastDigitValue(s[1..]);
      assert s[1..][..|s| - 2] == s[..|s| - 1][1..];
      assert Pow256(|s| - 1) == 256 * Pow256(|s| - 2);
      Regroup(s[|s| - 1], Pow256(|s| - 2));
    } else {
      assert s[1..] == [] && s[..0] == [];
    }
  }

  lemma Regroup(b: nat, p: nat)
    ensures 256 * (b * p) == b * (256 * p)
  {
  }

  lemma {:induction false} DigitsValue(value: nat)
    ensures FromLittleEndian(Digits(value)) == value
    ensures value > 0 ==> Digits(value) != [] && Digits(value)[|Digits(value)| - 1] > 0
    decreases value
  {
    if value > 0 {
      DigitsValue(value / 256);
      assert Digits(value)[1..] == Digits(value / 256);
    }
  }

  lemma {:induction false} DigitsLength(value: nat, n: nat)
    requires value < Pow256(n)
    ensures |Digits(value)| <= n
    decreases n
  {
    if value > 0 {
      DigitsLength(value / 256, n - 1);
    }
  }

  lemma NumberLength(value: u32)
    ensures |Number(value)| <= 5
    ensures value > 16 ==> |Number(value)| >= 1
  {
    Pow256Values();
    DigitsLength(value, 4);
    DigitsValue(value);
  }

  /** The sign bit is clear in the top byte, which is either the last digit or the zero after it. */
  lemma PaddedValue(digits: seq<u8>)
    ensures NumberValue(Padded(digits)) == FromLittleEndian(digits)
  {
    hide FromLittleEndian, Pow256;
    if digits == [] {
      EmptyValue();
    } else if digits[|digits| - 1] >= 0x80 {
      assert (digits + [0x00])[..|digits|] == digits;
    } else {
      LastDigitValue(digits);
    }
  }

  lemma EmptyValue()
    ensures FromLittleEndian([]) == 0
  {
  }

  /** Encoded numbers read back, and are never negative. */
  lemma NumberInverse(value: u32)
    ensures NumberValue(Number(value)) == value
  {
    hide Padded, NumberValue, Digits;
    DigitsValue(value);
    PaddedValue(Digits(value));
  }

  /** Minimality: no byte string with the same meaning is shorter. */
  lemma NumberIsMinimal(value: u32, other: seq<u8>)
    requires NumberValue(other) == value
    ensures |Number(value)| <= |other|
  {
    hide Digits;
    if value > 0 {
      var n := |other|;
      LittleEndianBound(other[..n - 1]);
      Hash256.MulLess(other[n - 1] % 0x80, 0x80, Pow256(n - 1), FromLittleEndian(other[..n - 1]));
      ShortNumber(value, n);
    } else {
      ZeroDigits();
    }
  }

  lemma ZeroDigits()
    ensures Digits(0) == []
  {
  }

  /** A value below 2^(8n - 1) takes at most `n` bytes. */
  lemma ShortNumber(value: u32, n: nat)
    requires 0 < n && 0 < value < Pow256(n - 1) * 0x80
    ensures |Number(value)| <= n
  {
    hide Digits;
    assert Pow256(n) == 256 * Pow256(n - 1);
    DigitsLength(value, n);
    DigitsValue(value);
    var d := Digits(value);
    if |d| == n {
      LastDigitValue(d);
      if d[n - 1] >= 0x80 {
        Hash256.MulAtLeast(0x80, d[n - 1], Pow256(n - 1));
      }
    }
  }

  // ---------------------------------------------------------------- reading scripts back

  /** The element pushed by the first operation, and the script after it. */
  function ReadPush(script: seq<u8>): Option<(seq<u8>, seq<u8>)> {
    if script == [] then None
    else if script[0] <= 75 then TakeElement(script[1..], script[0])
    else if script[0] == OP_PUSHDATA1 && |script| >= 2 then TakeElement(script[2..], script[1])
    else if script[0] == OP_PUSHDATA2 && |script| >= 3 then TakeElement(script[3..], FromLittleEndian(script[1..3]))
    else None
  }

  function TakeElement(s: seq<u8>, length: nat): Option<(seq<u8>, seq<u8>)> {
    if length <= |s| then Some((s[..length], s[length..])) else None
  }

  /** The height at the front of a script, as BIP 34 has it read. */
  function ReadHeight(script: seq<u8>): Option<(int, seq<u8>)> {
    if script == [] then None
    else if script[0] == OP_0 then Some((0, script[1..]))
    else if OP_1 <= script[0] <= OP_16 then Some((script[0] - OP_1 + 1, script[1..]))
    else match ReadPush(script)
      case None => None
      case Some((number, rest)) => Some((NumberValue(number), rest))
  }

  lemma ReadPushInverse(data: seq<u8>, rest: seq<u8>)
    requires |data| <= MAX_PUSH
    ensures ReadPush(Push(data) + rest) == Some((data, rest))
  {
    var n := |data|;
    var script := Push(data) + rest;
    Assoc(PushPrefix(n), data, rest);
    assert (data + rest)[..n] == data && (data + rest)[n..] == rest;
    if n <= 75 {
      assert script[1..] == data + rest;
    } else if n <= 255 {
      assert script[2..] == data + rest;
    } else {
      assert script[1..3] == LittleEndian(n, 2);
      assert script[3..] == data + rest;
      Pow256Values();
      LittleEndianDecodes(n, 2);
    }
  }

  lemma ReadHeightInverse(height: u32, rest: seq<u8>)
    ensures ReadHeight(BlockHeight(height) + rest) == Some((height, rest))
  {
    hide NumberValue, Number, ReadPush;
    var script := BlockHeight(height) + rest;
    if height <= 16 {
      assert script[1..] == rest;
    } else {
      NumberLength(height);
      NumberInverse(height);
      ReadPushInverse(Number(height), rest);
      assert script[0] == |Number(height)|;
    }
  }

  // ---------------------------------------------------------------- known encodings

  lemma KnownDigits()
    ensures Digits(17) == [0x11] && Digits(127) == [0x7F] && Digits(128) == [0x80]
    ensures Digits(100_000) == [0xA0, 0x86, 0x01] && Digits(8_388_608) == [0x00, 0x00, 0x80]
  {
    assert Digits(1) == [1] && Digits(390) == [0x86, 1] && Digits(0x80) == [0x80] && Digits(0x8000) == [0x00, 0x80];
  }

  /** A top digit of 0x80 or more gets a zero byte after it, or the number would read as negative. */
  lemma KnownNumbers()
    ensures Number(127) == [0x7F] && Number(128) == [0x80, 0x00] && Number(8_388_608) == [0x00, 0x00, 0x80, 0x00]
    ensures Number(17) == [0x11] && Number(100_000) == [0xA0, 0x86, 0x01]
  {
    hide Digits;
    KnownDigits();
  }

  /** Heights up to 16 are one opcode; 17 is the first ordinary push, and height 100000 takes three bytes. */
  lemma KnownHeights(height: u32)
    ensures height == 0 ==> BlockHeight(height) == [0x00]
    ensures 1 <= height <= 16 ==> BlockHeight(height) == [0x50 + height]
    ensures BlockHeight(17) == [0x01, 0x11] && BlockHeight(100_000) == [0x03, 0xA0, 0x86, 0x01]
  {
    hide Number;
    KnownNumbers();
  }

  /** The three forms of a push: a bare length, and the two opcodes with one and two length bytes. */
  lemma KnownPushes(length: nat)
    ensures length <= 75 ==> PushPrefix(length) == [length]
    ensures 76 <= length <= 255 ==> PushPrefix(length) == [0x4C, length]
    ensures 256 <= length <= 520 ==> PushPrefix(length) == [0x4D, length % 256, length / 256]
  {
    if 256 <= length <= 520 {
      assert length / 256 % 256 == length / 256;
      assert LittleEndian(length / 256, 1) == [length / 256] + LittleEndian(length / 256 / 256, 0);
      assert LittleEndian(length, 2) == [length % 256, length / 256];
    }
  }
}
