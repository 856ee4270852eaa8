/** SHA-256 as FIPS 180-4 defines it: padding, the logical functions, the compression function. */
module Sha256 {
  import opened Bytes
  import opened Words

  /** The eight working variables. */
  datatype Vars = Vars(a: Word, b: Word, c: Word, d: Word, e: Word, f: Word, g: Word, h: Word)

  type State = s: seq<Word> | |s| == 8 witness seq(8, _ => 0)

  type Block = s: seq<u8> | |s| == 64 witness ZeroBytes(64)

  const H0: State := [
    0x6a09e667, 0xbb67ae85, 0x3c6ef372, 0xa54ff53a, 0x510e527f, 0x9b05688c, 0x1f83d9ab, 0x5be0cd19]

  const K: seq<Word> :=
    [0x428a2f98, 0x71374491, 0xb5c0fbcf, 0xe9b5dba5, 0x3956c25b, 0x59f111f1, 0x923f82a4, 0xab1c5ed5]
    + [0xd807aa98, 0x12835b01, 0x243185be, 0x550c7dc3, 0x72be5d74, 0x80deb1fe, 0x9bdc06a7, 0xc19bf174]
    + [0xe49b69c1, 0xefbe4786, 0x0fc19dc6, 0x240ca1cc, 0x2de92c6f, 0x4a7484aa, 0x5cb0a9dc, 0x76f988da]
    + [0x983e5152, 0xa831c66d, 0xb00327c8, 0xbf597fc7, 0xc6e00bf3, 0xd5a79147, 0x06ca6351, 0x14292967]
    + [0x27b70a85, 0x2e1b2138, 0x4d2c6dfc, 0x53380d13, 0x650a7354, 0x766a0abb, 0x81c2c92e, 0x92722c85]
    + [0xa2bfe8a1, 0xa81a664b, 0xc24b8b70, 0xc76c51a3, 0xd192e819, 0xd6990624, 0xf40e3585, 0x106aa070]
    + [0x19a4c116, 0x1e376c08, 0x2748774c, 0x34b0bcb5, 0x391c0cb3, 0x4ed8aa4a, 0x5b9cca4f, 0x682e6ff3]
    + [0x748f82ee, 0x78a5636f, 0x84c87814, 0x8cc70208, 0x90befffa, 0xa4506ceb, 0xbef9a3f7, 0xc67178f2]

  lemma KLength()
    ensures |K| == 64
  {
  }

  // ---------------------------------------------------------------- where the constants come from

  /** The first 64 primes. */
  const PRIMES: seq<nat> :=
    [2, 3, 5, 7, 11, 13, 17, 19]
    + [23, 29, 31, 37, 41, 43, 47, 53]
    + [59, 61, 67, 71, 73, 79, 83, 89]
    + [97, 101, 103, 107, 109, 113, 127, 131]
    + [137, 139, 149, 151, 157, 163, 167, 173]
    + [179, 181, 191, 193, 197, 199, 211, 223]
    + [227, 229, 233, 239, 241, 251, 257, 263]
    + [269, 271, 277, 281, 283, 293, 307, 311]

  function FloorSquareRoot(p: nat): nat { if p < 4 then 1 else if p < 9 then 2 else if p < 16 then 3 else 4 }

  function FloorCubeRoot(p: nat): nat {
    if p < 8 then 1 else if p < 27 then 2 else if p < 64 then 3 else if p < 125 then 4 else if p < 216 then 5 else 6
  }

  /** `k` is the first 32 bits of the fractional part of the square root of `p`. */
  predicate SquareRootBits(k: Word, p: nat) {
    var r := FloorSquareRoot(p) * 0x1_0000_0000 + k;
    r * r <= p * 0x1_0000_0000_0000_0000 < (r + 1) * (r + 1)
  }

  /** `k` is the first 32 bits of the fractional part of the cube root of `p`. */
  predicate CubeRootBits(k: Word, p: nat) {
    var r := FloorCubeRoot(p) * 0x1_0000_0000 + k;
    r * r * r <= p * 0x1_0000_0000_0000_0000_0000_0000 < (r + 1) * (r + 1) * (r + 1)
  }

  predicate SquareRoots(low: nat, high: nat)
    requires high <= 8 && |PRIMES| == 64
    decreases high - low
  {
    low >= high || (SquareRootBits(H0[low], PRIMES[low]) && SquareRoots(low + 1, high))
  }

  predicate CubeRoots(low: nat, high: nat)
    requires high <= 64 && |K| == 64 && |PRIMES| == 64
    decreases high - low
  {
    low >= high || (CubeRootBits(K[low], PRIMES[low]) && CubeRoots(low + 1, high))
  }

  lemma {:induction false} SquareRootsAt(low: nat, high: nat, i: nat)
    requires low <= i < high <= 8 && |PRIMES| == 64 && SquareRoots(low, high)
    ensures SquareRootBits(H0[i], PRIMES[i])
    decreases i - low
  {
    hide SquareRootBits, PRIMES, H0;
    if low < i {
      SquareRootsAt(low + 1, high, i);
    }
  }

  lemma {:induction false} CubeRootsAt(low: nat, high: nat, i: nat)
    requires low <= i < high <= 64 && |K| == 64 && |PRIMES| == 64 && CubeRoots(low, high)
    ensures CubeRootBits(K[i], PRIMES[i])
    decreases i - low
  {
    hide CubeRootBits, PRIMES, K;
    if low < i {
      CubeRootsAt(low + 1, high, i);
    }
  }

  lemma TableSizes()
    ensures |K| == 64 && |PRIMES| == 64
  {
  }

  lemma SquareRootsOfEight()
    ensures |PRIMES| == 64 && SquareRoots(0, 8)
  {
  }

  lemma CubeRootsFrom0()
    ensures |K| == 64 && |PRIMES| == 64 && CubeRoots(0, 8)
  {
  }

  lemma CubeRootsFrom8()
    ensures |K| == 64 && |PRIMES| == 64 && CubeRoots(8, 16)
  {
  }

  lemma CubeRootsFrom16()
    ensures |K| == 64 && |PRIMES| == 64 && CubeRoots(16, 24)
  {
  }

  lemma CubeRootsFrom24()
    ensures |K| == 64 && |PRIMES| == 64 && CubeRoots(24, 32)
  {
  }

  lemma CubeRootsFrom32()
    ensures |K| == 64 && |PRIMES| == 64 && CubeRoots(32, 40)
  {
  }

  lemma CubeRootsFrom40()
    ensures |K| == 64 && |PRIMES| == 64 && CubeRoots(40, 48)
  {
  }

  lemma CubeRootsFrom48()
    ensures |K| == 64 && |PRIMES| == 64 && CubeRoots(48, 56)
  {
  }

  lemma CubeRootsFrom56()
    ensures |K| == 64 && |PRIMES| == 64 && CubeRoots(56, 64)
  {
  }

  /** The initial state: the square roots of the first eight primes. */
  lemma InitialStateIsRoots(i: nat)
    requires i < 8
    ensures |PRIMES| == 64 && SquareRootBits(H0[i], PRIMES[i])
  {
    hide SquareRoots, SquareRootBits, PRIMES, H0;
    TableSizes();
    SquareRootsOfEight();
    SquareRootsAt(0, 8, i);
  }

  /** The round constants: the cube roots of the first 64 primes. */
  lemma RoundConstantsAreRoots(i: nat)
    requires i < 64
    ensures |K| == 64 && |PRIMES| == 64 && CubeRootBits(K[i], PRIMES[i])
  {
    hide CubeRoots, CubeRootBits, PRIMES, K;
    TableSizes();
    if i < 32 {
      if i < 8 { CubeRootsFrom0(); CubeRootsAt(0, 8, i); }
      else if i < 16 { CubeRootsFrom8(); CubeRootsAt(8, 16, i); }
      else if i < 24 { CubeRootsFrom16(); CubeRootsAt(16, 24, i); }
      else { CubeRootsFrom24(); CubeRootsAt(24, 32, i); }
    } else {
      if i < 40 { CubeRootsFrom32(); CubeRootsAt(32, 40, i); }
      else if i < 48 { CubeRootsFrom40(); CubeRootsAt(40, 48, i); }
      else if i < 56 { CubeRootsFrom48(); CubeRootsAt(48, 56, i); }
      else { CubeRootsFrom56(); CubeRootsAt(56, 64, i); }
    }
  }

  // ---------------------------------------------------------------- section 4.1.2

  function Ch(x: Word, y: Word, z: Word): Word { Xor(And(x, y), And(Not(x), z)) }

  function Maj(x: Word, y: Word, z: Word): Word { Xor(Xor(And(x, y), And(x, z)), And(y, z)) }

  function BigSigma0(x: Word): Word { Xor(Xor(RotateRight(x, 2), RotateRight(x, 13)), RotateRight(x, 22)) }

  function BigSigma1(x: Word): Word { Xor(Xor(RotateRight(x, 6), RotateRight(x, 11)), RotateRight(x, 25)) }

  function SmallSigma0(x: Word): Word { Xor(Xor(RotateRight(x, 7), RotateRight(x, 18)), ShiftRight(x, 3)) }

  function SmallSigma1(x: Word): Word { Xor(Xor(RotateRight(x, 17), RotateRight(x, 19)), ShiftRight(x, 10)) }

  // ---------------------------------------------------------------- the logical functions, bit by bit

  predicate Parity(p: bool, q: bool, r: bool) { (p != q) != r }

  lemma XorOfThreeAt(x: Word, y: Word, z: Word, i: nat)
    requires i < 32
    ensures BitAt(Xor(Xor(x, y), z), i) == Parity(BitAt(x, i), BitAt(y, i), BitAt(z, i))
  {
    hide Xor, BitAt;
    OperatorsAt(x, y, i);
    OperatorsAt(Xor(x, y), z, i);
  }

  lemma BigSigma0At(x: Word, i: nat)
    requires i < 32
    ensures BitAt(BigSigma0(x), i) == Parity(BitAt(x, (i + 2) % 32), BitAt(x, (i + 13) % 32), BitAt(x, (i + 22) % 32))
  {
    hide Xor, BitAt, RotateRight;
    RotateRightAt(x, 2, i);
    RotateRightAt(x, 13, i);
    RotateRightAt(x, 22, i);
    XorOfThreeAt(RotateRight(x, 2), RotateRight(x, 13), RotateRight(x, 22), i);
  }

  lemma BigSigma1At(x: Word, i: nat)
    requires i < 32
    ensures BitAt(BigSigma1(x), i) == Parity(BitAt(x, (i + 6) % 32), BitAt(x, (i + 11) % 32), BitAt(x, (i + 25) % 32))
  {
    hide Xor, BitAt, RotateRight;
    RotateRightAt(x, 6, i);
    RotateRightAt(x, 11, i);
    RotateRightAt(x, 25, i);
    XorOfThreeAt(RotateRight(x, 6), RotateRight(x, 11), RotateRight(x, 25), i);
  }

  lemma SmallSigma0At(x: Word, i: nat)
    requires i < 32
    ensures BitAt(SmallSigma0(x), i)
            == Parity(BitAt(x, (i + 7) % 32), BitAt(x, (i + 18) % 32), i + 3 < 32 && BitAt(x, i + 3))
  {
    hide Xor, BitAt, RotateRight, ShiftRight;
    RotateRightAt(x, 7, i);
    RotateRightAt(x, 18, i);
    ShiftRightAt(x, 3, i);
    XorOfThreeAt(RotateRight(x, 7), RotateRight(x, 18), ShiftRight(x, 3), i);
  }

  lemma SmallSigma1At(x: Word, i: nat)
    requires i < 32
    ensures BitAt(SmallSigma1(x), i)
            == Parity(BitAt(x, (i + 17) % 32), BitAt(x, (i + 19) % 32), i + 10 < 32 && BitAt(x, i + 10))
  {
    hide Xor, BitAt, RotateRight, ShiftRight;
    RotateRightAt(x, 17, i);
    RotateRightAt(x, 19, i);
    ShiftRightAt(x, 10, i);
    XorOfThreeAt(RotateRight(x, 17), RotateRight(x, 19), ShiftRight(x, 10), i);
  }

  /** Ch chooses by its first word; Maj is the value of at least two of the three. */
  lemma ChMajAt(x: Word, y: Word, z: Word, i: nat)
    requires i < 32
    ensures BitAt(Ch(x, y, z), i) == if BitAt(x, i) then BitAt(y, i) else BitAt(z, i)
    ensures BitAt(Maj(x, y, z), i) == if BitAt(x, i) == BitAt(y, i) then BitAt(x, i) else BitAt(z, i)
  {
    hide Xor, And, Not, BitAt;
    OperatorsAt(x, y, i);
    OperatorsAt(x, z, i);
    OperatorsAt(y, z, i);
    OperatorsAt(Not(x), z, i);
    OperatorsAt(And(x, y), And(Not(x), z), i);
    XorOfThreeAt(And(x, y), And(x, z), And(y, z), i);
  }

  // ---------------------------------------------------------------- words and bytes

  function WordFromBe(b: seq<u8>): Word
    requires |b| == 4
  {
    BigEndianBound(b); Pow256Values();
    FromBigEndian(b)
  }

  function WordToBe(w: Word): (s: seq<u8>)
    ensures |s| == 4
  {
    BigEndian(w, 4)
  }

  function WordsToBe(words: seq<Word>): (s: seq<u8>)
    ensures |s| == 4 * |words|
  {
    if words == [] then [] else WordsToBe(words[..|words| - 1]) + WordToBe(words[|words| - 1])
  }

  // ---------------------------------------------------------------- section 6.2.2

  /** Word `t` of the message schedule of `block`. */
  function Schedule(block: Block, t: nat): Word {
    if t < 16 then WordFromBe(block[4 * t..4 * t + 4])
    else Add(Add(Add(SmallSigma1(Schedule(block, t - 2)), Schedule(block, t - 7)),
                 SmallSigma0(Schedule(block, t - 15))), Schedule(block, t - 16))
  }

  function Round(v: Vars, k: Word, w: Word): Vars {
    var t1 := Add(Add(Add(Add(v.h, BigSigma1(v.e)), Ch(v.e, v.f, v.g)), k), w);
    var t2 := Add(BigSigma0(v.a), Maj(v.a, v.b, v.c));
    Vars(Add(t1, t2), v.a, v.b, v.c, Add(v.d, t1), v.e, v.f, v.g)
  }

  /** The working variables after the first `t` rounds. */
  function Rounds(v: Vars, block: Block, t: nat): Vars
    requires t <= |K|
    decreases t, block
  {
    if t == 0 then v else Round(Rounds(v, block, t - 1), K[t - 1], Schedule(block, t - 1))
  }

  function Load(state: State): Vars {
    Vars(state[0], state[1], state[2], state[3], state[4], state[5], state[6], state[7])
  }

  function FeedForward(state: State, v: Vars): State {
    [Add(state[0], v.a), Add(state[1], v.b), Add(state[2], v.c), Add(state[3], v.d),
     Add(state[4], v.e), Add(state[5], v.f), Add(state[6], v.g), Add(state[7], v.h)]
  }

  /** One block absorbed into `state`. */
  function Compressed(state: State, block: Block): State {
    KLength();
    FeedForward(state, Rounds(Load(state), block, 64))
  }

  /** Step 1: the 64-word message schedule. */
  method PrepareSchedule(block: Block) returns (w: array<Word>)
    ensures fresh(w) && w.Length == 64
    ensures forall t :: 0 <= t < 64 ==> w[t] == Schedule(block, t)
  {
    hide WordFromBe, SmallSigma0, SmallSigma1, Add;
    w := new Word[64];
    for t := 0 to 16
      invariant forall j :: 0 <= j < t ==> w[j] == Schedule(block, j)
    {
      w[t] := WordFromBe(block[4 * t..4 * t + 4]);
    }
    for t := 16 to 64
      invariant forall j :: 0 <= j < t ==> w[j] == Schedule(block, j)
    {
      w[t] := Add(Add(Add(SmallSigma1(w[t - 2]), w[t - 7]), SmallSigma0(w[t - 15])), w[t - 16]);
    }
  }

  /** Steps 2 and 3: sixty-four rounds over the working variables. */
  method RunRounds(start: Vars, ghost block: Block, w: array<Word>) returns (v: Vars)
    requires w.Length == 64 && forall t :: 0 <= t < 64 ==> w[t] == Schedule(block, t)
    ensures |K| == 64 && v == Rounds(start, block, 64)
  {
    KLength();
    var Vars(a, b, c, d, e, f, g, h) := start;
    for t := 0 to 64
      invariant Vars(a, b, c, d, e, f, g, h) == Rounds(start, block, t)
    {
      var t1 := Add(Add(Add(Add(h, BigSigma1(e)), Ch(e, f, g)), K[t]), w[t]);
      var t2 := Add(BigSigma0(a), Maj(a, b, c));
      h := g;
      g := f;
      f := e;
      e := Add(d, t1);
      d := c;
      c := b;
      b := a;
      a := Add(t1, t2);
    }
    v := Vars(a, b, c, d, e, f, g, h);
  }

  /** The reference compression, in place; step 4 is the feed-forward. */
  method CompressBlock(state: array<Word>, block: Block)
    requires state.Length == 8
    modifies state
    ensures state[..] == Compressed(old(state[..]), block)
  {
    hide Rounds, Schedule, FeedForward;
    var w := PrepareSchedule(block);
    var v := RunRounds(Load(state[..]), block, w);
    AddInto(state, v);
  }

  method AddInto(state: array<Word>, v: Vars)
    requires state.Length == 8
    modifies state
    ensures state[..] == FeedForward(old(state[..]), v)
  {
    state[0] := Add(state[0], v.a);
    state[1] := Add(state[1], v.b);
    state[2] := Add(state[2], v.c);
    state[3] := Add(state[3], v.d);
    state[4] := Add(state[4], v.e);
    state[5] := Add(state[5], v.f);
    state[6] := Add(state[6], v.g);
    state[7] := Add(state[7], v.h);
  }

  // ---------------------------------------------------------------- section 5.1.1

  /** The smallest number of zero bytes after the marker that leaves room for the length in the last block. */
  function ZeroFill(len: nat): nat { (55 - len) % 64 }

  /** The padded message: the message, 0x80, zeros, the length in bits. */
  function Padded(message: seq<u8>): (padded: seq<u8>)
    ensures |padded| % 64 == 0
  {
    message + [0x80] + ZeroBytes(ZeroFill(|message|)) + BigEndian(8 * |message|, 8)
  }

  function PaddedLen(len: nat): nat { (len + 9 + 63) / 64 * 64 }

  method Pad(message: seq<u8>) returns (padded: seq<u8>)
    requires 8 * |message| <= U64_MAX
    ensures padded == Padded(message)
  {
    var bitLen := 8 * |message|;
    padded := message;
    padded := padded + [0x80];
    ghost var zeros := 0;
    while |padded| % 64 != 56
      invariant zeros <= ZeroFill(|message|)
      invariant padded == message + [0x80] + ZeroBytes(zeros)
      decreases ZeroFill(|message|) - zeros
    {
      hide ZeroFill;
      FillStops(|message|, zeros);
      assert ZeroBytes(zeros) + [0] == ZeroBytes(zeros + 1);
      Assoc(message + [0x80], ZeroBytes(zeros), [0]);
      padded := padded + [0x00];
      zeros := zeros + 1;
    }
    FillStops(|message|, zeros);
    padded := padded + BigEndian(bitLen, 8);
  }

  lemma Remainder(n: int, q: int, r: int)
    requires n == 64 * q + r && 0 <= r < 64
    ensures n % 64 == r && n / 64 == q
  {
  }

  /** The fill ends exactly where eight bytes are left in the block. */
  lemma FillStops(len: nat, zeros: nat)
    requires zeros <= ZeroFill(len)
    ensures (len + 1 + zeros) % 64 == 56 <==> zeros == ZeroFill(len)
  {
    var q, fill := (55 - len) / 64, ZeroFill(len);
    assert 55 - len == 64 * q + fill;
    var short := fill - zeros;
    if short <= 56 {
      Remainder(len + 1 + zeros, -q, 56 - short);
    } else {
      Remainder(len + 1 + zeros, -q - 1, 120 - short);
    }
  }

  lemma PaddedLenAgrees(message: seq<u8>)
    ensures |Padded(message)| == PaddedLen(|message|)
  {
    var len := |message|;
    var q, fill := (55 - len) / 64, ZeroFill(len);
    assert 55 - len == 64 * q + fill;
    Remainder(len + 9 + 63, 1 - q, 63 - fill);
    assert |Padded(message)| == len + 1 + fill + 8;
  }

  /** Where each part of the padding stands, and that its last eight bytes count the message's bits. */
  lemma PaddedParts(message: seq<u8>)
    requires 8 * |message| <= U64_MAX
    ensures var p, n := Padded(message), |message|;
            && |p| % 64 == 0 && n + 9 <= |p| < n + 9 + 64
            && p[..n] == message && p[n] == 0x80
            && (forall i :: n < i < |p| - 8 ==> p[i] == 0)
            && FromBigEndian(p[|p| - 8..]) == 8 * n
  {
    hide BigEndian, FromBigEndian;
    var p := Padded(message);
    Pow256Values();
    BigEndianDecodes(8 * |message|, 8);
    assert p[|p| - 8..] == BigEndian(8 * |message|, 8);
  }

  /** The marker and the length make the padding unambiguous. */
  lemma PaddedInjective(a: seq<u8>, b: seq<u8>)
    requires 8 * |a| <= U64_MAX && 8 * |b| <= U64_MAX && Padded(a) == Padded(b)
    ensures a == b
  {
    var p := Padded(a);
    assert p[|p| - 8..] == BigEndian(8 * |a|, 8) == BigEndian(8 * |b|, 8);
    Pow256Values();
    BigEndianDecodes(8 * |a|, 8);
    BigEndianDecodes(8 * |b|, 8);
    assert a == p[..|a|] && b == Padded(b)[..|b|];
  }

  // ---------------------------------------------------------------- the hash

  function Absorbed(state: State, data: seq<u8>): State
    requires |data| % 64 == 0
    decreases |data|
  {
    if data == [] then state else Absorbed(Compressed(state, data[..64]), data[64..])
  }

  function Digest(message: seq<u8>): (digest: Hash) {
    WordsToBe(Absorbed(H0, Padded(message)))
  }

  function Sha256d(message: seq<u8>): (digest: Hash) { Digest(Digest(message)) }

  /** Writes the eight state words out big-endian. */
  method WriteDigest(state: array<Word>) returns (digest: Hash)
    requires state.Length == 8
    ensures digest == WordsToBe(state[..])
  {
    var out := new u8[32];
    for i := 0 to 8
      invariant out[..4 * i] == WordsToBe(state[..i])
    {
      var word := WordToBe(state[i]);
      ghost var before := out[..4 * i];
      out[4 * i], out[4 * i + 1], out[4 * i + 2], out[4 * i + 3] := word[0], word[1], word[2], word[3];
      assert out[..4 * (i + 1)] == before + word;
      assert state[..i + 1][..i] == state[..i];
    }
    assert out[..32] == out[..] && state[..8] == state[..];
    digest := out[..];
  }

  method InitialState() returns (state: array<Word>)
    ensures fresh(state) && state.Length == 8 && state[..] == H0
  {
    state := new Word[8](i requires 0 <= i < 8 => H0[i]);
  }

  /** The slow and readable hash. */
  method Sha256(message: seq<u8>) returns (digest: Hash)
    requires 8 * |message| <= U64_MAX
    ensures digest == Digest(message)
  {
    hide Compressed, Padded;
    var padded := Pad(message);
    var state := InitialState();
    var at := 0;
    while at < |padded|
      invariant 0 <= at <= |padded| && at % 64 == 0
      invariant Absorbed(state[..], padded[at..]) == Absorbed(H0, padded)
    {
      assert padded[at..][..64] == padded[at..at + 64] && padded[at..][64..] == padded[at + 64..];
      CompressBlock(state, padded[at..at + 64]);
      at := at + 64;
    }
    digest := WriteDigest(state);
  }

  method DoubleSha256(message: seq<u8>) returns (digest: Hash)
    requires 8 * |message| <= U64_MAX
    ensures digest == Sha256d(message)
  {
    digest := Sha256(message);
    digest := Sha256(digest);
  }

  // ---------------------------------------------------------------- the rounds, as sums modulo 2^32

  const MODULUS := 0x1_0000_0000

  /** One round: five terms make the new `e` with the old `d`, and the new `a` with two more; the rest move along. */
  lemma RoundSums(v: Vars, k: Word, w: Word)
    ensures var r := Round(v, k, w);
            && r.a == (v.h + BigSigma1(v.e) + Ch(v.e, v.f, v.g) + k + w + (BigSigma0(v.a) + Maj(v.a, v.b, v.c))) % MODULUS
            && r.e == (v.d + (v.h + BigSigma1(v.e) + Ch(v.e, v.f, v.g) + k + w)) % MODULUS
            && r.b == v.a && r.c == v.b && r.d == v.c && r.f == v.e && r.g == v.f && r.h == v.g
  {
    hide BigSigma0, BigSigma1, Ch, Maj, Add;
    FiveTerms(v.h, BigSigma1(v.e), Ch(v.e, v.f, v.g), k, w);
    var t1 := Add(Add(Add(Add(v.h, BigSigma1(v.e)), Ch(v.e, v.f, v.g)), k), w);
    var t2 := Add(BigSigma0(v.a), Maj(v.a, v.b, v.c));
    AddToSum(BigSigma0(v.a), BigSigma0(v.a), Maj(v.a, v.b, v.c));
    TwoSums(v.h + BigSigma1(v.e) + Ch(v.e, v.f, v.g) + k + w, t1, BigSigma0(v.a) + Maj(v.a, v.b, v.c), t2);
    TwoSums(v.d, v.d, v.h + BigSigma1(v.e) + Ch(v.e, v.f, v.g) + k + w, t1);
  }

  lemma AddToSum(sum: nat, x: Word, y: Word)
    requires x == sum % MODULUS
    ensures Add(x, y) == (sum + y) % MODULUS
  {
    AddValue(x, y);
  }

  lemma TwoSums(sum: nat, x: Word, other: nat, y: Word)
    requires x == sum % MODULUS && y == other % MODULUS
    ensures Add(x, y) == (sum + other) % MODULUS
  {
    AddValue(x, y);
  }

  lemma FiveTerms(a: Word, b: Word, c: Word, d: Word, e: Word)
    ensures Add(Add(Add(Add(a, b), c), d), e) == (a + b + c + d + e) % MODULUS
  {
    hide Add;
    AddToSum(a, a, b);
    AddToSum(a + b, Add(a, b), c);
    AddToSum(a + b + c, Add(Add(a, b), c), d);
    AddToSum(a + b + c + d, Add(Add(Add(a, b), c), d), e);
  }

  /** The schedule: sixteen big-endian words of the block, and then the recurrence. */
  lemma ScheduleSums(block: Block, t: nat)
    ensures t < 16 ==> Schedule(block, t) == FromBigEndian(block[4 * t..4 * t + 4])
    ensures t >= 16 ==>
              Schedule(block, t) == (SmallSigma1(Schedule(block, t - 2)) + Schedule(block, t - 7)
                                     + SmallSigma0(Schedule(block, t - 15)) + Schedule(block, t - 16)) % MODULUS
  {
    hide SmallSigma0, SmallSigma1, Add;
    if t >= 16 {
      var a, b, c, d := SmallSigma1(Schedule(block, t - 2)), Schedule(block, t - 7), SmallSigma0(Schedule(block, t - 15)), Schedule(block, t - 16);
      AddToSum(a, a, b);
      AddToSum(a as nat + b, Add(a, b), c);
      AddToSum(a as nat + b + c, Add(Add(a, b), c), d);
    }
  }

  /** A block absorbed: word by word, the old state plus the working variables after round 64, one constant a round. */
  lemma CompressedSums(state: State, block: Block)
    ensures |K| == 64
    ensures var s, v := Compressed(state, block), Rounds(Load(state), block, 64);
            && s[0] == (state[0] + v.a) % MODULUS && s[1] == (state[1] + v.b) % MODULUS
            && s[2] == (state[2] + v.c) % MODULUS && s[3] == (state[3] + v.d) % MODULUS
            && s[4] == (state[4] + v.e) % MODULUS && s[5] == (state[5] + v.f) % MODULUS
            && s[6] == (state[6] + v.g) % MODULUS && s[7] == (state[7] + v.h) % MODULUS
    ensures forall t, v: Vars :: 0 <= t < 64 ==> Rounds(v, block, t + 1) == Round(Rounds(v, block, t), K[t], Schedule(block, t))
  {
    hide Round, Schedule;
    KLength();
  }
}
