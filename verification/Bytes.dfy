/** Machine integers, fixed-width byte encodings and the result type shared by every module. */
module Bytes {
  type u8 = x: int | 0 <= x < 0x100
  type u32 = x: int | 0 <= x < 0x1_0000_0000
  type u64 = x: int | 0 <= x < 0x1_0000_0000_0000_0000
  type i32 = x: int | -0x8000_0000 <= x < 0x8000_0000

  /** A growable array: its length always fits the 64-bit count that is written in front of it. */
  type Vec<+T> = s: seq<T> | |s| <= U64_MAX

  /** A double-SHA-256 hash in internal byte order: least significant byte first. */
  type Hash = s: seq<u8> | |s| == 32 witness ZeroBytes(32)

  const ZERO_HASH: Hash := ZeroBytes(32)

  function ZeroBytes(n: nat): (s: seq<u8>)
    ensures |s| == n
  {
    seq(n, _ => 0)
  }

  const U32_MAX: u32 := 0xFFFF_FFFF
  const U64_MAX: u64 := 0xFFFF_FFFF_FFFF_FFFF

  /** A value or an error; `:-` propagates the error. */
  datatype Result<+T, +E> = Ok(value: T) | Err(error: E) {
    predicate IsFailure() { Err? }
    function PropagateFailure<U>(): Result<U, E>
      requires Err?
    { Err(error) }
    function Extract(): T
      requires Ok?
    { value }
  }

  datatype Option<+T> = None | Some(value: T)

  function Pow2(n: nat): (p: nat)
    ensures p >= 1
  {
    if n == 0 then 1 else 2 * Pow2(n - 1)
  }

  function Pow256(n: nat): (p: nat)
    ensures p >= 1
  {
    if n == 0 then 1 else 256 * Pow256(n - 1)
  }

  /** The `width` low bytes of `value`, least significant first. */
  function LittleEndian(value: nat, width: nat): (s: seq<u8>)
    ensures |s| == width
  {
    if width == 0 then [] else [value % 256] + LittleEndian(value / 256, width - 1)
  }

  function FromLittleEndian(s: seq<u8>): nat {
    if s == [] then 0 else s[0] + 256 * FromLittleEndian(s[1..])
  }

  /** The `width` low bytes of `value`, most significant first. */
  function BigEndian(value: nat, width: nat): (s: seq<u8>)
    ensures |s| == width
  {
    if width == 0 then [] else BigEndian(value / 256, width - 1) + [value % 256]
  }

  function FromBigEndian(s: seq<u8>): nat {
    if s == [] then 0 else 256 * FromBigEndian(s[..|s| - 1]) + s[|s| - 1]
  }

  /** Two's complement: the bit pattern of `v` as an unsigned word. */
  function Unsigned(v: i32): u32 { if v < 0 then v + 0x1_0000_0000 else v }

  function Signed(v: u32): i32 { if v >= 0x8000_0000 then v - 0x1_0000_0000 else v }

  lemma Assoc<T>(a: seq<T>, b: seq<T>, c: seq<T>)
    ensures (a + b) + c == a + (b + c)
  {
  }

  lemma Pow256Values()
    ensures Pow256(1) == 0x100 && Pow256(2) == 0x1_0000 && Pow256(4) == 0x1_0000_0000
    ensures Pow256(8) == 0x1_0000_0000_0000_0000
  {
    assert Pow256(2) == 256 * Pow256(1);
    assert Pow256(3) == 256 * Pow256(2);
    assert Pow256(4) == 256 * Pow256(3);
    assert Pow256(5) == 256 * Pow256(4);
    assert Pow256(6) == 256 * Pow256(5);
    assert Pow256(7) == 256 * Pow256(6);
  }

  lemma {:induction false} LittleEndianBound(s: seq<u8>)
    ensures FromLittleEndian(s) < Pow256(|s|)
  {
    if s != [] {
      LittleEndianBound(s[1..]);
    }
  }

  lemma {:induction false} LittleEndianDecodes(value: nat, width: nat)
    requires value < Pow256(width)
    ensures FromLittleEndian(LittleEndian(value, width)) == value
  {
    if width > 0 {
      LittleEndianDecodes(value / 256, width - 1);
      assert LittleEndian(value, width)[1..] == LittleEndian(value / 256, width - 1);
    }
  }

  lemma SplitByte(b: u8, rest: nat)
    ensures (b + 256 * rest) % 256 == b && (b + 256 * rest) / 256 == rest
  {
  }

  lemma {:induction false} LittleEndianEncodes(s: seq<u8>)
    ensures LittleEndian(FromLittleEndian(s), |s|) == s
  {
    if s != [] {
      LittleEndianEncodes(s[1..]);
      SplitByte(s[0], FromLittleEndian(s[1..]));
      assert s == [s[0]] + s[1..];
    }
  }

  lemma {:induction false} BigEndianBound(s: seq<u8>)
    ensures FromBigEndian(s) < Pow256(|s|)
  {
    if s != [] {
      BigEndianBound(s[..|s| - 1]);
    }
  }

  lemma {:induction false} BigEndianDecodes(value: nat, width: nat)
    requires value < Pow256(width)
    ensures FromBigEndian(BigEndian(value, width)) == value
  {
    if width > 0 {
      BigEndianDecodes(value / 256, width - 1);
      assert BigEndian(value, width)[..width - 1] == BigEndian(value / 256, width - 1);
    }
  }

  lemma {:induction false} BigEndianEncodes(s: seq<u8>)
    ensures BigEndian(FromBigEndian(s), |s|) == s
  {
    if s != [] {
      BigEndianEncodes(s[..|s| - 1]);
      SplitByte(s[|s| - 1], FromBigEndian(s[..|s| - 1]));
      assert s == s[..|s| - 1] + [s[|s| - 1]];
    }
  }

  // ---------------------------------------------------------------- short numbers, byte by byte

  lemma TwoBytes(b0: u8, b1: u8)
    ensures LittleEndian(b0 as nat + 0x100 * b1, 2) == [b0, b1]
  {
    var s := [b0, b1];
    assert s[1..] == [b1] && s[1..][1..] == [];
    assert FromLittleEndian(s[1..]) == b1 + 256 * FromLittleEndian([]);
    LittleEndianEncodes(s);
  }

  lemma FourBytes(b0: u8, b1: u8, b2: u8, b3: u8)
    ensures LittleEndian(b0 as nat + 0x100 * b1 + 0x1_0000 * b2 + 0x100_0000 * b3, 4) == [b0, b1, b2, b3]
  {
    hide LittleEndian;
    var s := [b0, b1, b2, b3];
    assert s[1..] == [b1, b2, b3] && [b1, b2, b3][1..] == [b2, b3] && [b2, b3][1..] == [b3] && [b3][1..] == [];
    assert FromLittleEndian([b3]) == b3 + 256 * FromLittleEndian([]);
    assert FromLittleEndian([b2, b3]) == b2 + 256 * FromLittleEndian([b3]);
    assert FromLittleEndian([b1, b2, b3]) == b1 + 256 * FromLittleEndian([b2, b3]);
    LittleEndianEncodes(s);
  }

  lemma EightBytes(b0: u8, b1: u8, b2: u8, b3: u8, high: seq<u8>)
    requires |high| == 4
    ensures LittleEndian(b0 as nat + 0x100 * b1 + 0x1_0000 * b2 + 0x100_0000 * b3 + 0x1_0000_0000 * FromLittleEndian(high), 8)
            == [b0, b1, b2, b3] + high
  {
    hide LittleEndian;
    var s := [b0, b1, b2, b3] + high;
    var s1, s2, s3 := [b1, b2, b3] + high, [b2, b3] + high, [b3] + high;
    assert s[1..] == s1 && s1[1..] == s2 && s2[1..] == s3 && s3[1..] == high;
    assert FromLittleEndian(s3) == b3 + 256 * FromLittleEndian(high);
    assert FromLittleEndian(s2) == b2 + 256 * FromLittleEndian(s3);
    assert FromLittleEndian(s1) == b1 + 256 * FromLittleEndian(s2);
    LittleEndianEncodes(s);
  }

  // ---------------------------------------------------------------- division

  lemma RemainderUnique(a: nat, d: nat, q: nat, r: nat)
    requires d > 0 && r < d && a == q * d + r
    ensures a / d == q && a % d == r
  {
    var quotient, remainder := a / d, a % d;
    assert a == quotient * d + remainder;
    Difference(q, quotient, d);
    SmallMultiple(d, q - quotient);
  }

  lemma Difference(x: int, y: int, d: nat)
    ensures (x - y) * d == x * d - y * d
  {
  }

  lemma SmallMultiple(d: nat, k: int)
    requires k * d < d && k * d + d > 0
    ensures k == 0
  {
    if k >= 1 {
      Product(k - 1, d);
      Difference(k, 1, d);
    } else if k <= -1 {
      Product(-1 - k, d);
      Difference(-1, k, d);
    }
  }

  lemma Product(x: nat, y: nat)
    ensures x * y >= 0
  {
  }
}
