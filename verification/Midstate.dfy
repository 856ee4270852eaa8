/** The header hasher: the first block is compressed once, the nonce is swept over the second. */
module Midstate {
  import opened Bytes
  import opened Words
  import opened Sha256
  import Neon

  const HEADER_SIZE := 80
  const NONCE_OFFSET := 76

  /** A header's 80 bytes. */
  type HeaderBytes = s: seq<u8> | |s| == 80 witness ZeroBytes(80)

  /** A header with its first block already compressed, and the padded second block. */
  datatype HeaderHasher = HeaderHasher(midstate: State, tail: Block)

  /** Compresses one block, on the hardware instructions or the portable code. */
  method Compress(hardware: bool, state: array<Word>, block: Block)
    requires state.Length == 8
    modifies state
    ensures state[..] == Compressed(old(state[..]), block)
  {
    if hardware {
      Neon.CompressBlockNeon(state, block);
    } else {
      CompressBlock(state, block);
    }
  }

  function TailBlock(header: HeaderBytes): Block {
    header[64..80] + [0x80] + ZeroBytes(39) + BigEndian(8 * HEADER_SIZE, 8)
  }

  function Prepared(header: HeaderBytes): HeaderHasher {
    HeaderHasher(Compressed(H0, header[..64]), TailBlock(header))
  }

  function DigestBlock(state: State): Block {
    WordsToBe(state) + [0x80] + ZeroBytes(23) + BigEndian(8 * 32, 8)
  }

  function SecondHashed(state: State): Hash { WordsToBe(Compressed(H0, DigestBlock(state))) }

  function Hashed(hasher: HeaderHasher, nonce: u32): Hash {
    SecondHashed(Compressed(hasher.midstate, hasher.tail[..12] + LittleEndian(nonce, 4) + hasher.tail[16..]))
  }

  /** Precomputes the midstate for `header`. */
  method New(hardware: bool, header: HeaderBytes) returns (hasher: HeaderHasher)
    ensures hasher == Prepared(header)
  {
    hide Compressed, BigEndian;
    var midstate := InitialState();
    Compress(hardware, midstate, header[..64]);
    var tail := new u8[64](_ => 0);
    forall i | 0 <= i < 16 {
      tail[i] := header[64 + i];
    }
    tail[16] := 0x80;
    var length := BigEndian(8 * HEADER_SIZE, 8);
    forall i | 0 <= i < 8 {
      tail[56 + i] := length[i];
    }
    assert tail[..] == TailBlock(header);
    hasher := HeaderHasher(midstate[..], tail[..]);
  }

  /** Hashes the header with `nonce`. */
  method HashNonce(hardware: bool, hasher: HeaderHasher, nonce: u32) returns (digest: Hash)
    ensures digest == Hashed(hasher, nonce)
  {
    hide Compressed, SecondHashed, LittleEndian;
    var tail := new u8[64](i requires 0 <= i < 64 => hasher.tail[i]);
    var bytes := LittleEndian(nonce, 4);
    forall i | 0 <= i < 4 {
      tail[12 + i] := bytes[i];
    }
    assert tail[..] == hasher.tail[..12] + bytes + hasher.tail[16..];
    var state := new Word[8](i requires 0 <= i < 8 => hasher.midstate[i]);
    assert state[..] == hasher.midstate;
    Compress(hardware, state, tail[..]);
    digest := SecondHash(hardware, state[..]);
  }

  /** The second hash, over the 32-byte digest of the first: always exactly one block. */
  method SecondHash(hardware: bool, firstState: State) returns (digest: Hash)
    ensures digest == SecondHashed(firstState)
  {
    hide Compressed, WordsToBe, BigEndian;
    var block := new u8[64](_ => 0);
    var words := WordsToBe(firstState);
    forall i | 0 <= i < 32 {
      block[i] := words[i];
    }
    block[32] := 0x80;
    var length := BigEndian(8 * 32, 8);
    forall i | 0 <= i < 8 {
      block[56 + i] := length[i];
    }
    assert block[..] == DigestBlock(firstState);
    var state := InitialState();
    Compress(hardware, state, block[..]);
    digest := WriteDigest(state);
  }

  /** SHA-256 on the hardware instructions computes the same digest as the reference. */
  method HardwareSha256(message: seq<u8>) returns (digest: Hash)
    requires 8 * |message| <= U64_MAX
    ensures digest == Digest(message)
  {
    hide Compressed, Padded;
    var padded := Pad(message);
    var state := InitialState();
    var at := 0;
    while at < |padded|
      invariant 0 <= at <= |padded| && at % 64 == 0
      invariant Absorbed(state[..], padded[at..]) == Absorbed(H0, padded)
    {
      assert padded[at..][..64] == padded[at..at + 64] && padded[at..][64..] == padded[at + 64..];
      Neon.CompressBlockNeon(state, padded[at..at + 64]);
      at := at + 64;
    }
    digest := WriteDigest(state);
  }

  lemma OneBlock(state: State, block: Block)
    ensures Absorbed(state, block) == Compressed(state, block)
  {
    hide Compressed;
    assert block[..64] == block && block[64..] == [];
  }

  lemma TwoBlocks(state: State, first: Block, second: Block)
    ensures Absorbed(state, first + second) == Compressed(Compressed(state, first), second)
  {
    hide Compressed;
    assert (first + second)[..64] == first && (first + second)[64..] == second;
    OneBlock(Compressed(state, first), second);
  }

  /** A 32-byte digest pads to the single block that the second hash builds. */
  lemma SecondHashIsDigest(state: State)
    ensures SecondHashed(state) == Digest(WordsToBe(state))
  {
    hide Compressed, WordsToBe, Absorbed;
    assert Padded(WordsToBe(state)) == DigestBlock(state);
    OneBlock(H0, DigestBlock(state));
  }

  /** Only the nonce bytes of the second block vary. */
  lemma PaddedHeader(header: HeaderBytes, nonce: u32)
    ensures var stamped := header[..NONCE_OFFSET] + LittleEndian(nonce, 4);
            var tail := TailBlock(header);
            Padded(stamped) == header[..64] + (tail[..12] + LittleEndian(nonce, 4) + tail[16..])
  {
    hide BigEndian, LittleEndian;
    var stamped := header[..NONCE_OFFSET] + LittleEndian(nonce, 4);
    var tail := TailBlock(header);
    assert |stamped| == 80 && ZeroFill(80) == 39;
    assert tail[16..] == [0x80] + ZeroBytes(39) + BigEndian(8 * 80, 8);
    assert tail[..12] == header[64..76];
    assert stamped == header[..64] + (tail[..12] + LittleEndian(nonce, 4));
  }

  /** The midstate path is the double hash of the header with its nonce replaced. */
  lemma MidstateIsSha256d(header: HeaderBytes, nonce: u32)
    ensures Hashed(Prepared(header), nonce) == Sha256d(header[..NONCE_OFFSET] + LittleEndian(nonce, 4))
  {
    hide Compressed, Padded, WordsToBe, SecondHashed, LittleEndian;
    var stamped := header[..NONCE_OFFSET] + LittleEndian(nonce, 4);
    var tail := TailBlock(header);
    PaddedHeader(header, nonce);
    TwoBlocks(H0, header[..64], tail[..12] + LittleEndian(nonce, 4) + tail[16..]);
    SecondHashIsDigest(Absorbed(H0, Padded(stamped)));
  }

  /** The header's own nonce is irrelevant to the prepared hasher's results. */
  lemma MidstateIgnoresNonce(a: HeaderBytes, b: HeaderBytes, nonce: u32)
    requires a[..NONCE_OFFSET] == b[..NONCE_OFFSET]
    ensures Hashed(Prepared(a), nonce) == Hashed(Prepared(b), nonce)
  {
    hide Sha256d, Hashed;
    MidstateIsSha256d(a, nonce);
    MidstateIsSha256d(b, nonce);
  }
}
