/** Difficulty targets: the compact form, and the test that decides a block. */
module Target {
  import opened Bytes
  import opened Hash256
  import Words

  /** A 256-bit target, most significant byte first. */
  type Target = s: seq<u8> | |s| == 32 witness ZeroBytes(32)

  datatype TargetError = Negative | Overflow

  function Exponent(bits: u32): nat { bits / 0x100_0000 }

  function Mantissa(bits: u32): nat { bits % 0x80_0000 }

  predicate SignBit(bits: u32) { bits / 0x80_0000 % 2 == 1 }

  lemma NonNegative(x: nat, y: nat)
    requires y > 0
    ensures x * y >= 0 && x / y >= 0
  {
  }

  /** mantissa * 256^(exponent - 3), rounded down. */
  function CompactValue(bits: u32): nat {
    NonNegative(Mantissa(bits), Pow256(if Exponent(bits) >= 3 then Exponent(bits) - 3 else 3 - Exponent(bits)));
    if Exponent(bits) >= 3 then Mantissa(bits) * Pow256(Exponent(bits) - 3)
    else Mantissa(bits) / Pow256(3 - Exponent(bits))
  }

  function Decoded(bits: u32): Result<Target, TargetError> {
    if SignBit(bits) then Err(Negative)
    else if CompactValue(bits) >= Pow256(32) then Err(Overflow)
    else Ok(BigEndian(CompactValue(bits), 32))
  }

  function MantissaByte(bits: u32, i: nat): u8
    requires i < 3
  {
    if i == 0 then Mantissa(bits) / 0x1_0000 else if i == 1 then Mantissa(bits) / 0x100 % 0x100 else Mantissa(bits) % 0x100
  }

  /** What mantissa byte `i` contributes to the value; bytes below position 0 are lost. */
  function Contribution(bits: u32, i: nat): nat
    requires i < 3
  {
    var power := Exponent(bits) - 1 - i;
    if power >= 0 then MantissaByte(bits, i) * Pow256(power) else 0
  }

  /** Decodes the compact form: the three mantissa bytes are placed one by one. */
  method FromCompact(bits: u32) returns (r: Result<Target, TargetError>)
    ensures r == Decoded(bits)
  {
    hide Decoded, CompactValue, MantissaByte, Exponent;
    if SignBit(bits) {
      DecodedCases(bits);
      return Err(Negative);
    }
    var bytes := new u8[32](_ => 0);
    var mantissaBytes := [MantissaByte(bits, 0), MantissaByte(bits, 1), MantissaByte(bits, 2)];
    assert bytes[..] == ZeroBytes(32);
    NothingPlaced(bits);
    for i := 0 to 3
      invariant Placed(bytes[..], bits, i)
    {
      var power := Exponent(bits) - 1 - i;
      PlaceStep(bytes[..], bits, i);
      if power > 31 {
        if mantissaBytes[i] != 0 {
          TooHigh(bits, i);
          DecodedCases(bits);
          return Err(Overflow);
        }
      } else if power >= 0 {
        bytes[31 - power] := mantissaBytes[i];
      }
    }
    ContributionsSum(bits);
    BigEndianBound(bytes[..]);
    BigEndianEncodes(bytes[..]);
    DecodedCases(bits);
    r := Ok(bytes[..]);
  }

  function PlacedUpTo(bits: u32, n: nat): nat
    requires n <= 3
  {
    if n == 0 then 0 else PlacedUpTo(bits, n - 1) + Contribution(bits, n - 1)
  }

  /** The buffer after `n` mantissa bytes: its value so far, and zeros wherever a later byte will go. */
  ghost predicate Placed(s: seq<u8>, bits: u32, n: nat)
    requires n <= 3
  {
    && |s| == 32
    && FromBigEndian(s) == PlacedUpTo(bits, n)
    && forall j :: 0 <= j < 32 && 31 - j <= Exponent(bits) - 1 - n ==> s[j] == 0
  }

  lemma NothingPlaced(bits: u32)
    ensures Placed(ZeroBytes(32), bits, 0)
  {
    hide Exponent;
    ZeroValue(32);
  }

  lemma PlaceStep(s: seq<u8>, bits: u32, i: nat)
    requires i < 3 && Placed(s, bits, i)
    ensures var power := Exponent(bits) - 1 - i;
            && (0 <= power <= 31 ==> Placed(s[31 - power := MantissaByte(bits, i)], bits, i + 1))
            && (power < 0 ==> Placed(s, bits, i + 1))
            && (power > 31 && MantissaByte(bits, i) == 0 ==> Placed(s, bits, i + 1))
  {
    hide Exponent, MantissaByte, FromBigEndian;
    var power := Exponent(bits) - 1 - i;
    if 0 <= power <= 31 {
      SetByteValue(s, 31 - power, MantissaByte(bits, i));
    }
  }

  lemma DecodedCases(bits: u32)
    ensures SignBit(bits) ==> Decoded(bits) == Err(Negative)
    ensures !SignBit(bits) && CompactValue(bits) >= Pow256(32) ==> Decoded(bits) == Err(Overflow)
    ensures !SignBit(bits) && CompactValue(bits) < Pow256(32) ==> Decoded(bits) == Ok(BigEndian(CompactValue(bits), 32))
  {
  }

  lemma ContributionCases(bits: u32, i: nat)
    requires i < 3
    ensures var power := Exponent(bits) - 1 - i;
            Contribution(bits, i) == if power >= 0 then MantissaByte(bits, i) * Pow256(power) else 0
  {
  }

  lemma MantissaSplit(bits: u32)
    ensures Mantissa(bits) == MantissaByte(bits, 0) * 0x1_0000 + MantissaByte(bits, 1) * 0x100 + MantissaByte(bits, 2)
  {
  }

  lemma ThreeContributions(bits: u32)
    ensures PlacedUpTo(bits, 3) == Contribution(bits, 0) + Contribution(bits, 1) + Contribution(bits, 2)
  {
    hide Contribution;
    assert PlacedUpTo(bits, 1) == Contribution(bits, 0);
    assert PlacedUpTo(bits, 2) == PlacedUpTo(bits, 1) + Contribution(bits, 1);
  }

  /** The mantissa shifted down by one byte, two bytes, or three. */
  lemma MantissaShifted(a: nat, b: u8, c: u8, mantissa: nat)
    requires mantissa == a * 0x1_0000 + b * 0x100 + c
    ensures mantissa / 0x100 == a * 0x100 + b && mantissa / 0x1_0000 == a
    ensures a < 0x100 ==> mantissa / 0x100_0000 == 0
  {
  }

  /** The three contributions add up to the compact value. */
  lemma ContributionsSum(bits: u32)
    ensures PlacedUpTo(bits, 3) == CompactValue(bits)
  {
    var e, a, b, c := Exponent(bits), MantissaByte(bits, 0), MantissaByte(bits, 1), MantissaByte(bits, 2);
    ThreeContributions(bits);
    MantissaSplit(bits);
    hide MantissaByte, Mantissa, Exponent, PlacedUpTo;
    Pow256Values();
    assert Pow256(3) == 0x100_0000;
    if e >= 3 {
      var p := Pow256(e - 3);
      assert Pow256(e - 2) == 256 * p;
      assert Pow256(e - 1) == 256 * Pow256(e - 2);
      hide Pow256;
      SumOfThree(a, b, c, p);
    } else {
      MantissaShifted(a, b, c, Mantissa(bits));
    }
  }

  lemma SumOfThree(a: nat, b: nat, c: nat, p: nat)
    ensures a * (256 * (256 * p)) + b * (256 * p) + c * p == (a * 0x1_0000 + b * 0x100 + c) * p
  {
  }

  lemma SumAtLeast(bits: u32, i: nat)
    requires i < 3
    ensures PlacedUpTo(bits, 3) >= Contribution(bits, i)
  {
    hide Contribution, PlacedUpTo;
    ThreeContributions(bits);
  }

  /** A nonzero mantissa byte above the top position makes the value too large. */
  lemma TooHigh(bits: u32, i: nat)
    requires i < 3 && Exponent(bits) - 1 - i > 31 && MantissaByte(bits, i) != 0
    ensures CompactValue(bits) >= Pow256(32)
  {
    hide MantissaByte, CompactValue, Contribution, Exponent, PlacedUpTo, Pow256;
    var power := Exponent(bits) - 1 - i;
    ContributionsSum(bits);
    ContributionCases(bits, i);
    SumAtLeast(bits, i);
    Pow256Monotone(32, power);
    TimesAtLeastOne(MantissaByte(bits, i), Pow256(power));
  }

  lemma TimesAtLeastOne(a: nat, p: nat)
    requires a > 0
    ensures a * p >= p
  {
  }

  lemma {:induction false} Pow256Monotone(a: nat, b: nat)
    requires a <= b
    ensures Pow256(a) <= Pow256(b)
  {
    if a < b {
      Pow256Monotone(a, b - 1);
    }
  }

  lemma {:induction false} ZeroValue(n: nat)
    ensures FromBigEndian(ZeroBytes(n)) == 0
  {
    if n > 0 {
      ZeroValue(n - 1);
      assert ZeroBytes(n)[..n - 1] == ZeroBytes(n - 1);
    }
  }

  /** Writing `b` over a zero byte adds `b` at that byte's weight. */
  lemma {:induction false} SetByteValue(s: seq<u8>, i: nat, b: u8)
    requires i < |s| && s[i] == 0
    ensures FromBigEndian(s[i := b]) == FromBigEndian(s) + b * Pow256(|s| - 1 - i)
  {
    var n := |s| - 1;
    if i == n {
      assert s[i := b][..n] == s[..n];
    } else {
      SetByteValue(s[..n], i, b);
      assert s[i := b][..n] == s[..n][i := b];
      ScaledBy256(b, Pow256(n - 1 - i));
    }
  }

  lemma ScaledBy256(b: nat, p: nat)
    ensures b * (256 * p) == 256 * (b * p)
  {
  }

  // ---------------------------------------------------------------- the win condition

  /** The hash, read as a number, is at most the target. */
  predicate Meets(target: Target, hash: Hash) { Value(hash) <= FromBigEndian(target) }

  /** The two byte orders are walked from opposite ends; the first difference decides. */
  method IsMetBy(target: Target, hash: Hash) returns (met: bool)
    ensures met <==> Meets(target, hash)
  {
    ReversedValue(Reversed(target));
    assert Reversed(Reversed(target)) == target;
    for i := 0 to 32
      invariant forall j :: 0 <= j < i ==> hash[31 - j] == target[j]
    {
      if hash[31 - i] != target[i] {
        assert hash[32 - i..] == Reversed(target)[32 - i..];
        HigherByteDecides(hash, Reversed(target), 31 - i);
        return hash[31 - i] < target[i];
      }
    }
    assert hash == Reversed(target) by {
      forall j | 0 <= j < 32 ensures hash[j] == target[31 - j] {
        var i := 31 - j;
        assert hash[31 - i] == target[i];
      }
    }
    met := true;
  }

  method LeadingZeroBits(target: Target) returns (count: nat)
    ensures count == CountZeros(target)
  {
    count := 0;
    for i := 0 to 32
      invariant count + CountZeros(target[i..]) == CountZeros(target)
    {
      assert target[i..][1..] == target[i + 1..];
      count := count + ByteZeros(target[i]);
      if target[i] != 0 {
        return;
      }
    }
  }

  /** The decoder as documented: exact value, and an error exactly for a sign bit or 257 bits and more. */
  lemma DecodedValue(bits: u32)
    ensures Decoded(bits).Ok? <==> !SignBit(bits) && CompactValue(bits) < Pow256(32)
    ensures Decoded(bits).Ok? ==> FromBigEndian(Decoded(bits).value) == CompactValue(bits)
    ensures Decoded(bits) == Err(Negative) <==> SignBit(bits)
  {
    if Decoded(bits).Ok? {
      BigEndianDecodes(CompactValue(bits), 32);
    }
  }

  /** A hash with fewer leading zeros than the target cannot meet it. */
  lemma ZeroBitsAreNecessary(target: Target, hash: Hash)
    requires Meets(target, hash)
    ensures ZeroBits(hash) >= CountZeros(target)
  {
    var t := Reversed(target);
    assert Reversed(t) == target;
    ReversedValue(t);
    SmallerHasNoFewerZeros(hash, t);
  }

  /** The compact form's three parts: eight exponent bits, the sign at bit 23, and 23 mantissa bits. */
  lemma CompactParts(bits: u32)
    ensures bits == Exponent(bits) * 0x100_0000 + (if SignBit(bits) then 0x80_0000 else 0) + Mantissa(bits)
    ensures Exponent(bits) < 0x100 && Mantissa(bits) < 0x80_0000
    ensures SignBit(bits) <==> Words.BitAt(bits, 23)
  {
    Words.BitAtValue(bits, 23);
    assert Pow2(8) == 0x100 && Pow2(16) == 0x1_0000 && Pow2(20) == 0x10_0000;
    assert Pow2(23) == 0x80_0000;
  }
}
