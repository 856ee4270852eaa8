/** 32-bit words as integers: modular addition, and the bitwise operators defined bit by bit. */
module Words {
  import opened Bytes

  type Word = u32

  function Bit(x: nat): bool { x % 2 == 1 }

  /** The low `n` bits of `x` and `y` combined by `op`, bit by bit. */
  function Zip(op: (bool, bool) -> bool, x: nat, y: nat, n: nat): (r: nat)
    ensures r < Pow2(n)
    decreases n, x
  {
    if n == 0 then 0 else (if op(Bit(x), Bit(y)) then 1 else 0) + 2 * Zip(op, x / 2, y / 2, n - 1)
  }

  predicate AndBit(p: bool, q: bool) { p && q }
  predicate OrBit(p: bool, q: bool) { p || q }
  predicate XorBit(p: bool, q: bool) { p != q }
  predicate NotBit(p: bool, q: bool) { !p }

  lemma Pow2Values()
    ensures Pow2(8) == 0x100 && Pow2(32) == 0x1_0000_0000
  {
    assert Pow2(4) == 16;
    assert Pow2(8) == 0x100;
    assert Pow2(12) == 0x1000;
    assert Pow2(16) == 0x1_0000;
    assert Pow2(20) == 0x10_0000;
    assert Pow2(24) == 0x100_0000;
    assert Pow2(28) == 0x1000_0000;
  }

  function And(x: Word, y: Word): Word { Pow2Values(); Zip(AndBit, x, y, 32) }
  function Or(x: Word, y: Word): Word { Pow2Values(); Zip(OrBit, x, y, 32) }
  function Xor(x: Word, y: Word): Word { Pow2Values(); Zip(XorBit, x, y, 32) }
  function Not(x: Word): Word { Pow2Values(); Zip(NotBit, x, 0, 32) }

  function XorByte(x: u8, y: u8): u8 { Pow2Values(); Zip(XorBit, x, y, 8) }

  /** Wrapping addition. */
  function Add(x: Word, y: Word): Word { if x + y <= U32_MAX then x + y else x + y - 0x1_0000_0000 }

  /** Rotation towards the low end, one place at a time. */
  function RotateRight(x: Word, n: nat): Word
    decreases n, x
  {
    if n == 0 then x else RotateRight(x / 2 + x % 2 * 0x8000_0000, n - 1)
  }

  function ShiftRight(x: Word, n: nat): Word
    decreases n, x
  {
    if n == 0 then x else ShiftRight(x / 2, n - 1)
  }

  lemma AddAssoc(x: Word, y: Word, z: Word)
    ensures Add(Add(x, y), z) == Add(x, Add(y, z))
  {
  }

  lemma AddComm(x: Word, y: Word)
    ensures Add(x, y) == Add(y, x)
  {
  }

  lemma {:induction false} ZipTwice(x: nat, y: nat, n: nat)
    requires x < Pow2(n)
    ensures Zip(XorBit, Zip(XorBit, x, y, n), y, n) == x
  {
    if n > 0 {
      ZipTwice(x / 2, y / 2, n - 1);
    }
  }

  lemma XorByteTwice(x: u8, y: u8)
    ensures XorByte(XorByte(x, y), y) == x
  {
    Pow2Values();
    ZipTwice(x, y, 8);
  }

  lemma {:induction false} ZipComm(x: nat, y: nat, n: nat)
    ensures Zip(XorBit, x, y, n) == Zip(XorBit, y, x, n)
  {
    if n > 0 {
      ZipComm(x / 2, y / 2, n - 1);
    }
  }

  lemma {:induction false} ZipZero(x: nat, n: nat)
    requires x < Pow2(n)
    ensures Zip(XorBit, x, 0, n) == x
  {
    if n > 0 {
      ZipZero(x / 2, n - 1);
    }
  }

  lemma XorByteZero(x: u8)
    ensures XorByte(x, 0) == x
  {
    Pow2Values();
    ZipZero(x, 8);
  }

  lemma ZipStep(op: (bool, bool) -> bool, x: nat, y: nat, n: nat)
    requires n > 0
    ensures Bit(Zip(op, x, y, n)) == op(Bit(x), Bit(y))
    ensures Zip(op, x, y, n) / 2 == Zip(op, x / 2, y / 2, n - 1)
  {
  }

  lemma SameBits(a: nat, b: nat)
    requires Bit(a) == Bit(b) && a / 2 == b / 2
    ensures a == b
  {
  }

  /** Choosing by a mask: the two usual formulas agree bit by bit. */
  lemma {:induction false} ChooseBits(x: nat, y: nat, z: nat, n: nat)
    ensures Zip(XorBit, Zip(AndBit, Zip(XorBit, y, z, n), x, n), z, n)
            == Zip(XorBit, Zip(AndBit, x, y, n), Zip(AndBit, Zip(NotBit, x, 0, n), z, n), n)
  {
    if n > 0 {
      hide Zip, Bit;
      var differ, both, not := Zip(XorBit, y, z, n), Zip(AndBit, x, y, n), Zip(NotBit, x, 0, n);
      var masked, other := Zip(AndBit, differ, x, n), Zip(AndBit, not, z, n);
      ZipStep(XorBit, y, z, n);
      ZipStep(AndBit, x, y, n);
      ZipStep(NotBit, x, 0, n);
      ZipStep(AndBit, differ, x, n);
      ZipStep(AndBit, not, z, n);
      ZipStep(XorBit, masked, z, n);
      ZipStep(XorBit, both, other, n);
      ChooseBits(x / 2, y / 2, z / 2, n - 1);
      SameBits(Zip(XorBit, masked, z, n), Zip(XorBit, both, other, n));
    }
  }

  /** Majority: the two usual formulas agree bit by bit. */
  lemma {:induction false} MajorityBits(x: nat, y: nat, z: nat, n: nat)
    ensures Zip(OrBit, Zip(AndBit, x, y, n), Zip(AndBit, Zip(OrBit, x, y, n), z, n), n)
            == Zip(XorBit, Zip(XorBit, Zip(AndBit, x, y, n), Zip(AndBit, x, z, n), n), Zip(AndBit, y, z, n), n)
  {
    if n > 0 {
      hide Zip, Bit;
      var both, either, left, right := Zip(AndBit, x, y, n), Zip(OrBit, x, y, n), Zip(AndBit, x, z, n), Zip(AndBit, y, z, n);
      var third, odd := Zip(AndBit, either, z, n), Zip(XorBit, both, left, n);
      ZipStep(AndBit, x, y, n);
      ZipStep(OrBit, x, y, n);
      ZipStep(AndBit, x, z, n);
      ZipStep(AndBit, y, z, n);
      ZipStep(AndBit, either, z, n);
      ZipStep(XorBit, both, left, n);
      ZipStep(OrBit, both, third, n);
      ZipStep(XorBit, odd, right, n);
      MajorityBits(x / 2, y / 2, z / 2, n - 1);
      SameBits(Zip(OrBit, both, third, n), Zip(XorBit, odd, right, n));
    }
  }

  // ---------------------------------------------------------------- what each operation does to each bit

  /** Bit `i` of `x`, the lowest being bit 0. */
  function BitAt(x: nat, i: nat): bool
    decreases i, x
  {
    if i == 0 then Bit(x) else BitAt(x / 2, i - 1)
  }

  lemma {:induction false} BitAtValue(x: nat, i: nat)
    ensures BitAt(x, i) <==> x / Pow2(i) % 2 == 1
  {
    if i > 0 {
      BitAtValue(x / 2, i - 1);
      DivDiv(x, Pow2(i - 1));
    }
  }

  lemma DivDiv(x: nat, p: nat)
    requires p > 0
    ensures x / 2 / p == x / (2 * p)
  {
    var q, r := x / 2 / p, x / 2 % p;
    assert x / 2 == q * p + r;
    RemainderUnique(x, 2 * p, q, 2 * r + x % 2);
  }

  lemma {:induction false} ZipAt(op: (bool, bool) -> bool, x: nat, y: nat, n: nat, i: nat)
    requires i < n
    ensures BitAt(Zip(op, x, y, n), i) == op(BitAt(x, i), BitAt(y, i))
    decreases n
  {
    hide Zip, Bit;
    ZipStep(op, x, y, n);
    if i > 0 {
      ZipAt(op, x / 2, y / 2, n - 1, i - 1);
    }
  }

  /** The four operators act on every bit by themselves. */
  lemma OperatorsAt(x: Word, y: Word, i: nat)
    requires i < 32
    ensures BitAt(And(x, y), i) == (BitAt(x, i) && BitAt(y, i))
    ensures BitAt(Or(x, y), i) == (BitAt(x, i) || BitAt(y, i))
    ensures BitAt(Xor(x, y), i) == (BitAt(x, i) != BitAt(y, i))
    ensures BitAt(Not(x), i) == !BitAt(x, i)
  {
    hide Zip, BitAt;
    ZipAt(AndBit, x, y, 32, i);
    ZipAt(OrBit, x, y, 32, i);
    ZipAt(XorBit, x, y, 32, i);
    ZipAt(NotBit, x, 0, 32, i);
  }

  lemma XorByteAt(x: u8, y: u8, i: nat)
    requires i < 8
    ensures BitAt(XorByte(x, y), i) == (BitAt(x, i) != BitAt(y, i))
  {
    hide Zip, BitAt;
    ZipAt(XorBit, x, y, 8, i);
  }

  lemma {:induction false} ZeroAt(i: nat)
    ensures !BitAt(0, i)
  {
    if i > 0 {
      ZeroAt(i - 1);
    }
  }

  lemma {:induction false} AboveTop(x: nat, m: nat, i: nat)
    requires x < Pow2(m) && m <= i
    ensures !BitAt(x, i)
    decreases i
  {
    if m == 0 {
      ZeroAt(i);
    } else {
      AboveTop(x / 2, m - 1, i - 1);
    }
  }

  /** A bit put on top of `m` lower ones. */
  lemma {:induction false} OnTop(x: nat, b: nat, m: nat, i: nat)
    requires x < Pow2(m) && b < 2 && i <= m
    ensures BitAt(x + b * Pow2(m), i) == if i == m then b == 1 else BitAt(x, i)
    decreases m
  {
    if m > 0 {
      var p := Pow2(m - 1);
      assert b * Pow2(m) == 2 * (b * p);
      assert (x + 2 * (b * p)) / 2 == x / 2 + b * p && (x + 2 * (b * p)) % 2 == x % 2;
      if i > 0 {
        OnTop(x / 2, b, m - 1, i - 1);
      }
    }
  }

  lemma RotateOneAt(x: Word, i: nat)
    requires i < 32
    ensures BitAt(x / 2 + x % 2 * 0x8000_0000, i) == BitAt(x, if i == 31 then 0 else i + 1)
  {
    Pow2Values();
    assert Pow2(32) == 2 * Pow2(31);
    OnTop(x / 2, x % 2, 31, i);
  }

  /** Rotating moves bit (i + n) mod 32 to place i. */
  lemma {:induction false} RotateRightAt(x: Word, n: nat, i: nat)
    requires n <= 32 && i < 32
    ensures BitAt(RotateRight(x, n), i) == BitAt(x, (i + n) % 32)
    decreases n
  {
    hide BitAt;
    if n > 0 {
      var y := x / 2 + x % 2 * 0x8000_0000;
      RotateRightAt(y, n - 1, i);
      RotateOneAt(x, (i + n - 1) % 32);
    }
  }

  /** Shifting moves bit i + n to place i, and zeros in at the top. */
  lemma {:induction false} ShiftRightAt(x: Word, n: nat, i: nat)
    ensures BitAt(ShiftRight(x, n), i) == BitAt(x, i + n)
    ensures i + n >= 32 ==> !BitAt(ShiftRight(x, n), i)
    decreases n
  {
    if n > 0 {
      ShiftRightAt(x / 2, n - 1, i);
    }
    Pow2Values();
    if i + n >= 32 {
      AboveTop(x, 32, i + n);
    }
  }

  /** Shifting divides. */
  lemma {:induction false} ShiftRightValue(x: Word, n: nat)
    ensures ShiftRight(x, n) == x / Pow2(n)
    decreases n
  {
    if n > 0 {
      ShiftRightValue(x / 2, n - 1);
      DivDiv(x, Pow2(n - 1));
    }
  }

  /** Rotating divides, and puts the remainder on top. */
  lemma {:induction false} RotateRightValue(x: Word, n: nat)
    requires n <= 32
    ensures RotateRight(x, n) == x / Pow2(n) + x % Pow2(n) * Pow2(32 - n)
    decreases n
  {
    if n > 0 {
      RotateRightValue(x / 2 + x % 2 * 0x8000_0000, n - 1);
      RotateStep(x, n);
    }
  }

  lemma RotateStep(x: Word, n: nat)
    requires 0 < n <= 32
    ensures var y := x / 2 + x % 2 * 0x8000_0000;
            y / Pow2(n - 1) + y % Pow2(n - 1) * Pow2(33 - n) == x / Pow2(n) + x % Pow2(n) * Pow2(32 - n)
  {
    var p, t := Pow2(n - 1), Pow2(32 - n);
    assert Pow2(n) == 2 * p && Pow2(33 - n) == 2 * t;
    Pow2Product(n - 1, 32 - n);
    Pow2Values();
    assert Pow2(32) == 2 * Pow2(31);
    hide Pow2;
    RotateParts(x, p, t);
  }

  /** One place of a rotation, with the word cut after its low bits: 2^31 is p * t. */
  lemma RotateParts(x: nat, p: nat, t: nat)
    requires p > 0 && t > 0 && p * t == 0x8000_0000
    ensures var y := x / 2 + x % 2 * 0x8000_0000;
            y / p + y % p * (2 * t) == x / (2 * p) + x % (2 * p) * t
  {
    var b, h := x % 2, x / 2;
    var q, r := h / p, h % p;
    LowBit(b, p, t);
    TopPart(h, b * t, p);
    LowPart(x, p);
    Expand(2 * r, b, t);
    Regroup(r, 2, t);
  }

  lemma LowBit(b: nat, p: nat, t: nat)
    requires b < 2 && p * t == 0x8000_0000
    ensures b * 0x8000_0000 == b * t * p
  {
    Regroup(b, t, p);
  }

  lemma TopPart(h: nat, m: nat, p: nat)
    requires p > 0
    ensures (h + m * p) / p == h / p + m && (h + m * p) % p == h % p
  {
    Expand(h / p, m, p);
    RemainderUnique(h + m * p, p, h / p + m, h % p);
  }

  lemma LowPart(x: nat, p: nat)
    requires p > 0
    ensures x / (2 * p) == x / 2 / p && x % (2 * p) == 2 * (x / 2 % p) + x % 2
  {
    var q, r := x / 2 / p, x / 2 % p;
    assert x / 2 == q * p + r;
    Regroup(q, 2, p);
    RemainderUnique(x, 2 * p, q, 2 * r + x % 2);
  }

  lemma {:induction false} Pow2Product(a: nat, b: nat)
    ensures Pow2(a) * Pow2(b) == Pow2(a + b)
  {
    if b > 0 {
      Pow2Product(a, b - 1);
      Regroup(Pow2(a), 2, Pow2(b - 1));
    }
  }

  lemma Regroup(a: int, b: int, c: int)
    ensures a * (b * c) == a * b * c == b * (a * c)
  {
  }

  lemma Expand(a: int, b: int, c: int)
    ensures (a + b) * c == a * c + b * c
  {
  }

  /** Addition wraps at 2^32. */
  lemma AddValue(x: Word, y: Word)
    ensures Add(x, y) == (x + y) % 0x1_0000_0000
  {
  }
}
