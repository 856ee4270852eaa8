/** Hashes as 256-bit numbers: comparison and leading zeros, on little-endian bytes. */
module Hash256 {
  import opened Bytes

  datatype Ordering = Less | Equal | Greater

  const ALL_ONES: Hash := Ones(32)

  function Ones(n: nat): (s: seq<u8>)
    ensures |s| == n
  {
    seq(n, _ => 0xFF)
  }

  /** The 256-bit number a hash stands for. */
  function Value(hash: Hash): nat { FromLittleEndian(hash) }

  function Reversed(s: seq<u8>): (r: seq<u8>)
    ensures |r| == |s|
  {
    seq(|s|, i requires 0 <= i < |s| => s[|s| - 1 - i])
  }

  function Compared(a: nat, b: nat): Ordering {
    if a < b then Less else if a == b then Equal else Greater
  }

  /** Leading zero bits of one byte. */
  function ByteZeros(b: u8): nat {
    if b >= 0x80 then 0 else if b >= 0x40 then 1 else if b >= 0x20 then 2 else if b >= 0x10 then 3
    else if b >= 8 then 4 else if b >= 4 then 5 else if b >= 2 then 6 else if b >= 1 then 7 else 8
  }

  /** Leading zero bits of a byte string, most significant byte first. */
  function CountZeros(s: seq<u8>): (n: nat)
    ensures n <= 8 * |s|
  {
    if s == [] then 0 else ByteZeros(s[0]) + if s[0] != 0 then 0 else CountZeros(s[1..])
  }

  /** The leading zero bits of a hash as its display form shows them. */
  function ZeroBits(hash: Hash): nat { CountZeros(Reversed(hash)) }

  // ---------------------------------------------------------------- the loops

  /** Walks from the most significant byte and stops at the first difference. */
  method NumericCmp(a: Hash, b: Hash) returns (ordering: Ordering)
    ensures ordering == Compared(Value(a), Value(b))
  {
    var i := 32;
    while i > 0
      invariant 0 <= i <= 32 && a[i..] == b[i..]
    {
      i := i - 1;
      if a[i] != b[i] {
        HigherByteDecides(a, b, i);
        return if a[i] < b[i] then Less else Greater;
      }
      assert a[i..] == [a[i]] + a[i + 1..] && b[i..] == [b[i]] + b[i + 1..];
    }
    assert a == a[0..] && b == b[0..];
    ordering := Equal;
  }

  method IsBelow(a: Hash, b: Hash) returns (below: bool)
    ensures below <==> Value(a) < Value(b)
  {
    var ordering := NumericCmp(a, b);
    below := ordering == Less;
  }

  method LeadingZeroBits(hash: Hash) returns (count: nat)
    ensures count == ZeroBits(hash)
  {
    count := 0;
    var i := 32;
    ghost var display := Reversed(hash);
    while i > 0
      invariant 0 <= i <= 32
      invariant count + CountZeros(display[32 - i..]) == CountZeros(display)
    {
      i := i - 1;
      assert display[31 - i..][1..] == display[32 - i..];
      count := count + ByteZeros(hash[i]);
      if hash[i] != 0 {
        return;
      }
    }
  }

  // ---------------------------------------------------------------- numbers

  /** With equal bytes above position `i`, the byte at `i` decides. */
  lemma {:induction false} HigherByteDecides(a: seq<u8>, b: seq<u8>, i: nat)
    requires |a| == |b| && i < |a| && a[i + 1..] == b[i + 1..] && a[i] != b[i]
    ensures a[i] < b[i] <==> FromLittleEndian(a) < FromLittleEndian(b)
    ensures FromLittleEndian(a) != FromLittleEndian(b)
  {
    if i == 0 {
      assert a[1..] == b[1..];
    } else {
      assert a[1..][i..] == a[i + 1..] && b[1..][i..] == b[i + 1..];
      HigherByteDecides(a[1..], b[1..], i - 1);
    }
  }

  lemma {:induction false} Pow2Of8(n: nat)
    ensures Pow2(8 * n) == Pow256(n)
  {
    if n > 0 {
      Pow2Of8(n - 1);
      Pow2Add(8 * (n - 1), 8);
      assert Pow2(8) == 256;
    }
  }

  lemma {:induction false} Pow2Add(a: nat, b: nat)
    ensures Pow2(a + b) == Pow2(a) * Pow2(b)
  {
    if b > 0 {
      Pow2Add(a, b - 1);
    }
  }

  lemma {:induction false} Pow2Monotone(a: nat, b: nat)
    requires a <= b
    ensures Pow2(a) <= Pow2(b)
  {
    if a < b {
      Pow2Monotone(a, b - 1);
    }
  }

  lemma LastByteValue(s: seq<u8>)
    requires s != []
    ensures FromBigEndian(s) == 256 * FromBigEndian(s[..|s| - 1]) + s[|s| - 1]
  {
  }

  lemma Distribute(a: nat, p: nat, rest: nat)
    ensures 256 * (a * p + rest) == a * (256 * p) + 256 * rest
  {
  }

  /** A big-endian number by its first byte. */
  lemma {:induction false} FirstByteValue(s: seq<u8>)
    requires s != []
    ensures FromBigEndian(s) == s[0] * Pow256(|s| - 1) + FromBigEndian(s[1..])
  {
    if |s| > 1 {
      var front, p := s[..|s| - 1], Pow256(|s| - 2);
      assert Pow256(|s| - 1) == 256 * p;
      FirstByteValue(front);
      assert s[1..][..|s| - 2] == front[1..];
      hide FromBigEndian, Pow256;
      LastByteValue(s);
      LastByteValue(s[1..]);
      Distribute(s[0], p, FromBigEndian(front[1..]));
    } else {
      assert s[..0] == [] && s[1..] == [];
    }
  }

  lemma {:induction false} ReversedValue(s: seq<u8>)
    ensures FromBigEndian(Reversed(s)) == FromLittleEndian(s)
  {
    if s != [] {
      ReversedValue(s[1..]);
      assert Reversed(s)[..|s| - 1] == Reversed(s[1..]);
    }
  }

  /** A byte with `z` leading zeros lies in the range of numbers of 8 - z bits. */
  lemma ByteRange(b: u8)
    ensures ByteZeros(b) <= 8 && b < Pow2(8 - ByteZeros(b))
    ensures b > 0 ==> ByteZeros(b) < 8 && Pow2(7 - ByteZeros(b)) <= b
    ensures b == 0 <==> ByteZeros(b) == 8
  {
    assert Pow2(1) == 2 && Pow2(2) == 4 && Pow2(3) == 8 && Pow2(4) == 16;
    assert Pow2(5) == 32 && Pow2(6) == 64 && Pow2(7) == 128 && Pow2(8) == 256;
  }

  lemma ZerosByFirstByte(s: seq<u8>)
    requires s != []
    ensures CountZeros(s) == if s[0] == 0 then 8 + CountZeros(s[1..]) else ByteZeros(s[0])
  {
  }

  /** A nonzero byte in front of `low` lower bits. */
  lemma TopByteBounds(b: u8, low: nat, rest: nat)
    requires b > 0 && rest < Pow2(low)
    ensures ByteZeros(b) < 8
    ensures Pow2(low + (7 - ByteZeros(b))) <= b * Pow2(low) + rest < Pow2(low + (8 - ByteZeros(b)))
  {
    hide Pow2, ByteZeros;
    ByteRange(b);
    var z := ByteZeros(b);
    Pow2Add(low, 8 - z);
    Pow2Add(low, 7 - z);
    MulLess(b, Pow2(8 - z), Pow2(low), rest);
    MulAtLeast(Pow2(7 - z), b, Pow2(low));
  }

  /** A string with `z` leading zero bits is a number of exactly 8n - z bits. */
  lemma {:induction false} ZerosBoundValue(s: seq<u8>)
    ensures FromBigEndian(s) < Pow2(8 * |s| - CountZeros(s))
    ensures CountZeros(s) < 8 * |s| ==> Pow2(8 * |s| - CountZeros(s) - 1) <= FromBigEndian(s)
  {
    if s != [] {
      hide FromBigEndian, Pow2, Pow256, CountZeros, ByteZeros;
      var low, rest := 8 * (|s| - 1), FromBigEndian(s[1..]);
      ZerosByFirstByte(s);
      FirstByteValue(s);
      if s[0] == 0 {
        ZerosBoundValue(s[1..]);
      } else {
        BigEndianBound(s[1..]);
        Pow2Of8(|s| - 1);
        TopByteBounds(s[0], low, rest);
      }
    }
  }

  lemma MulLess(a: nat, b: nat, p: nat, rest: nat)
    requires a < b && rest < p
    ensures a * p + rest < p * b
  {
    MulAtLeast(a + 1, b, p);
    assert p * (a + 1) == p * a + p;
  }

  lemma MulAtLeast(a: nat, b: nat, p: nat)
    requires a <= b
    ensures p * a <= b * p
  {
  }

  /** More leading zeros means a smaller number. */
  lemma MoreZerosIsSmaller(a: Hash, b: Hash)
    requires ZeroBits(a) > ZeroBits(b)
    ensures Value(a) < Value(b)
  {
    ReversedValue(a);
    ReversedValue(b);
    ZerosBoundValue(Reversed(a));
    ZerosBoundValue(Reversed(b));
    Pow2Monotone(256 - ZeroBits(a), 256 - ZeroBits(b) - 1);
  }

  lemma SmallerHasNoFewerZeros(a: Hash, b: Hash)
    requires Value(a) <= Value(b)
    ensures ZeroBits(a) >= ZeroBits(b)
  {
    if ZeroBits(a) < ZeroBits(b) {
      MoreZerosIsSmaller(b, a);
    }
  }

  /** Distinct hashes are distinct numbers. */
  lemma ValueInjective(a: Hash, b: Hash)
    requires Value(a) == Value(b)
    ensures a == b
  {
    LittleEndianEncodes(a);
    LittleEndianEncodes(b);
  }

  /** Nothing is above the all-ones hash. */
  lemma {:induction false} AllOnesIsTop(s: seq<u8>)
    ensures FromLittleEndian(s) <= FromLittleEndian(Ones(|s|))
  {
    if s != [] {
      AllOnesIsTop(s[1..]);
      assert Ones(|s|)[1..] == Ones(|s[1..]|);
    }
  }
}
