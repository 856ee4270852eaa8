/** Stratum's third byte order: every four-byte word of a hash reversed. */
module ByteOrder {
  import opened Bytes
  import Hash256
  import Hex

  function Swapped(bytes: Hash): Hash {
    seq(32, i requires 0 <= i < 32 => bytes[i - i % 4 + (3 - i % 4)])
  }

  lemma SwappedWord(bytes: Hash, at: nat)
    requires at + 4 <= 32 && at % 4 == 0
    ensures var s := Swapped(bytes);
            s[at] == bytes[at + 3] && s[at + 1] == bytes[at + 2] && s[at + 2] == bytes[at + 1] && s[at + 3] == bytes[at]
  {
  }

  /** Reverses each chunk of four in place, in a copy. */
  method SwapWords(bytes: Hash) returns (swapped: Hash)
    ensures swapped == Swapped(bytes)
  {
    var buffer := new u8[32](i requires 0 <= i < 32 => bytes[i]);
    ghost var target := Swapped(bytes);
    for word := 0 to 8
      invariant forall i :: 0 <= i < 4 * word ==> buffer[i] == target[i]
      invariant forall i :: 4 * word <= i < 32 ==> buffer[i] == bytes[i]
    {
      hide Swapped;
      var at := 4 * word;
      SwappedWord(bytes, at);
      buffer[at], buffer[at + 3] := buffer[at + 3], buffer[at];
      buffer[at + 1], buffer[at + 2] := buffer[at + 2], buffer[at + 1];
    }
    swapped := buffer[..];
  }

  /** The wire form of `prevhash`, and back. */
  function HashToStratum(hash: Hash): Hash { Swapped(hash) }

  function HashFromStratum(bytes: Hash): Hash { Swapped(bytes) }

  /** Encoding and decoding are the same involution. */
  lemma SwapTwice(bytes: Hash)
    ensures Swapped(Swapped(bytes)) == bytes
  {
  }

  /** How a hash is displayed: reversed, in hex. */
  function Display(hash: Hash): string { Hex.Encoded(Hash256.Reversed(hash)) }

  datatype ParseHashError = BadLength(length: nat) | BadDigit

  /** Parsing the display form: exactly 64 hex characters. */
  function FromDisplay(text: string): Result<Hash, ParseHashError> {
    if |text| != 64 then Err(BadLength(|text|)) else
    match Hex.DecodedArray(text, 32)
    case Err(_) => Err(BadDigit)
    case Ok(bytes) => Ok(Hash256.Reversed(bytes))
  }

  /** A displayed hash reads back as itself. */
  lemma DisplayReadsBack(hash: Hash)
    ensures FromDisplay(Display(hash)) == Ok(hash)
  {
    hide Hex.DecodedArray, Hex.Encoded;
    Hex.DecodeEncoded(Hash256.Reversed(hash));
    assert Hash256.Reversed(Hash256.Reversed(hash)) == hash;
  }

  /** The reference pool's transformation: the eight 8-character groups in the opposite order. */
  function GroupsReversed(text: string): string
    requires |text| == 64
  {
    seq(64, k requires 0 <= k < 64 => text[8 * (7 - k / 8) + k % 8])
  }

  lemma {:induction false} EncodedAt(bytes: seq<u8>, i: nat)
    requires i < |bytes|
    ensures Hex.Encoded(bytes)[2 * i..2 * i + 2] == Hex.ByteText(bytes[i])
  {
    hide Hex.ByteText;
    if i > 0 {
      EncodedAt(bytes[1..], i - 1);
      var tail := Hex.Encoded(bytes[1..]);
      assert Hex.Encoded(bytes)[2 * i..2 * i + 2] == tail[2 * (i - 1)..2 * (i - 1) + 2];
    }
  }

  /** Swapping words of the internal bytes is reversing the groups of the display string. */
  lemma SwapIsGroupReversal(hash: Hash)
    ensures Hex.Encoded(HashToStratum(hash)) == GroupsReversed(Display(hash))
  {
    hide Hex.Encoded, Hex.ByteText;
    var wire, display, groups := Hex.Encoded(Swapped(hash)), Display(hash), GroupsReversed(Display(hash));
    forall k | 0 <= k < 64 ensures wire[k] == groups[k] {
      var i := k / 2;
      var from := 28 - 4 * (i / 4) + i % 4;
      GroupIndex(display, k);
      EncodedAt(Swapped(hash), i);
      EncodedAt(Hash256.Reversed(hash), from);
      assert Swapped(hash)[i] == Hash256.Reversed(hash)[from];
      assert wire[k] == wire[2 * i..2 * i + 2][k % 2];
      assert display[2 * from + k % 2] == display[2 * from..2 * from + 2][k % 2];
    }
  }

  lemma GroupIndex(text: string, k: nat)
    requires |text| == 64 && k < 64
    ensures var i := k / 2; GroupsReversed(text)[k] == text[2 * (28 - 4 * (i / 4) + i % 4) + k % 2]
  {
  }
}
