/** The 80-byte block header. */
module Header {
  import opened Bytes
  import Midstate
  import Sha256
  import opened Target

  datatype BlockHeader = BlockHeader(
    version: i32, prevBlock: Hash, merkleRoot: Hash, time: u32, bits: u32, nonce: u32)

  type HeaderBytes = Midstate.HeaderBytes

  const NONCE_OFFSET := Midstate.NONCE_OFFSET

  function Serialized(header: BlockHeader): HeaderBytes {
    LittleEndian(Unsigned(header.version), 4) + header.prevBlock + header.merkleRoot
    + LittleEndian(header.time, 4) + LittleEndian(header.bits, 4) + LittleEndian(header.nonce, 4)
  }

  function WordAt(bytes: seq<u8>): u32
    requires |bytes| == 4
  {
    LittleEndianBound(bytes); Pow256Values();
    FromLittleEndian(bytes)
  }

  function Deserialized(bytes: HeaderBytes): BlockHeader {
    BlockHeader(Signed(WordAt(bytes[0..4])), bytes[4..36], bytes[36..68],
                WordAt(bytes[68..72]), WordAt(bytes[72..76]), WordAt(bytes[76..80]))
  }

  /** The block's hash. */
  function HashOf(header: BlockHeader): Hash { Sha256.Sha256d(Serialized(header)) }

  /** Writes the six fields into their slots of a zeroed buffer. */
  method Serialize(header: BlockHeader) returns (out: HeaderBytes)
    ensures out == Serialized(header)
  {
    hide LittleEndian;
    var buffer := new u8[80](_ => 0);
    CopyInto(buffer, 0, LittleEndian(Unsigned(header.version), 4));
    CopyInto(buffer, 4, header.prevBlock);
    CopyInto(buffer, 36, header.merkleRoot);
    CopyInto(buffer, 68, LittleEndian(header.time, 4));
    CopyInto(buffer, 72, LittleEndian(header.bits, 4));
    CopyInto(buffer, NONCE_OFFSET, LittleEndian(header.nonce, 4));
    assert buffer[..80] == buffer[..];
    out := buffer[..];
  }

  method CopyInto(buffer: array<u8>, at: nat, bytes: seq<u8>)
    requires at + |bytes| <= buffer.Length
    modifies buffer
    ensures buffer[..at + |bytes|] == old(buffer[..at]) + bytes
    ensures buffer[at + |bytes|..] == old(buffer[at + |bytes|..])
  {
    forall i | 0 <= i < |bytes| {
      buffer[at + i] := bytes[i];
    }
  }

  lemma WordAtInverse(value: u32)
    ensures WordAt(LittleEndian(value, 4)) == value
  {
    Pow256Values();
    LittleEndianDecodes(value, 4);
  }

  /** Parsing undoes serialising. */
  lemma DeserializeSerialized(header: BlockHeader)
    ensures Deserialized(Serialized(header)) == header
  {
    hide LittleEndian, WordAt;
    var s := Serialized(header);
    assert s[0..4] == LittleEndian(Unsigned(header.version), 4);
    assert s[4..36] == header.prevBlock && s[36..68] == header.merkleRoot;
    assert s[68..72] == LittleEndian(header.time, 4) && s[72..76] == LittleEndian(header.bits, 4);
    assert s[76..80] == LittleEndian(header.nonce, 4);
    WordAtInverse(Unsigned(header.version));
    WordAtInverse(header.time);
    WordAtInverse(header.bits);
    WordAtInverse(header.nonce);
  }

  /** Serialising undoes parsing: the 80 bytes and the six fields determine each other. */
  lemma SerializeDeserialized(bytes: HeaderBytes)
    ensures Serialized(Deserialized(bytes)) == bytes
  {
    hide LittleEndian;
    LittleEndianEncodes(bytes[0..4]);
    LittleEndianEncodes(bytes[68..72]);
    LittleEndianEncodes(bytes[72..76]);
    LittleEndianEncodes(bytes[76..80]);
    assert bytes == bytes[0..4] + bytes[4..36] + bytes[36..68] + bytes[68..72] + bytes[72..76] + bytes[76..80];
  }

  /** Changing the nonce changes only the last four bytes. */
  lemma NonceIsLast(header: BlockHeader, nonce: u32)
    ensures Serialized(header.(nonce := nonce)) == Serialized(header)[..NONCE_OFFSET] + LittleEndian(nonce, 4)
  {
    hide LittleEndian;
  }

  /** The midstate hasher prepared from a header gives the block hash for every nonce. */
  lemma HasherGivesBlockHash(header: BlockHeader, nonce: u32)
    ensures Midstate.Hashed(Midstate.Prepared(Serialized(header)), nonce) == HashOf(header.(nonce := nonce))
  {
    hide Serialized, LittleEndian, Sha256.Sha256d, Midstate.Hashed, Midstate.Prepared;
    NonceIsLast(header, nonce);
    Midstate.MidstateIsSha256d(Serialized(header), nonce);
  }

  /** Whether the header's hash meets its own stated target. */
  function ProofOfWork(header: BlockHeader): Result<bool, TargetError> {
    var target :- Decoded(header.bits);
    Ok(Meets(target, HashOf(header)))
  }

  method IsValidProofOfWork(header: BlockHeader) returns (r: Result<bool, TargetError>)
    ensures r == ProofOfWork(header)
  {
    hide HashOf;
    var target :- FromCompact(header.bits);
    var bytes := Serialize(header);
    var hash := Sha256.DoubleSha256(bytes);
    assert hash == HashOf(header) by { HashOfBytes(header); }
    var met := IsMetBy(target, hash);
    r := Ok(met);
  }

  lemma HashOfBytes(header: BlockHeader)
    ensures HashOf(header) == Sha256.Sha256d(Serialized(header))
  {
  }

  /** Where each field stands in the 80 bytes, and in which byte order. */
  lemma HeaderFields(header: BlockHeader)
    ensures var s := Serialized(header);
            && FromLittleEndian(s[0..4]) == Unsigned(header.version)
            && s[4..36] == header.prevBlock && s[36..68] == header.merkleRoot
            && FromLittleEndian(s[68..72]) == header.time && FromLittleEndian(s[72..76]) == header.bits
            && FromLittleEndian(s[76..80]) == header.nonce
  {
    hide LittleEndian, FromLittleEndian;
    var s := Serialized(header);
    Pow256Values();
    LittleEndianDecodes(Unsigned(header.version), 4);
    LittleEndianDecodes(header.time, 4);
    LittleEndianDecodes(header.bits, 4);
    LittleEndianDecodes(header.nonce, 4);
    assert s[0..4] == LittleEndian(Unsigned(header.version), 4) && s[68..72] == LittleEndian(header.time, 4);
    assert s[72..76] == LittleEndian(header.bits, 4) && s[76..80] == LittleEndian(header.nonce, 4);
  }

  /** Proof of work in numbers: the bits stand for a value below 2^256, and the hash of the 80 bytes is at most that. */
  lemma ProofOfWorkIff(header: BlockHeader)
    ensures ProofOfWork(header) == Ok(true) <==>
            !SignBit(header.bits) && CompactValue(header.bits) < Pow256(32)
            && FromLittleEndian(Sha256.Sha256d(Serialized(header))) <= CompactValue(header.bits)
    ensures ProofOfWork(header) == Err(Negative) <==> SignBit(header.bits)
    ensures ProofOfWork(header) == Err(Overflow) <==> !SignBit(header.bits) && CompactValue(header.bits) >= Pow256(32)
  {
    hide Sha256.Sha256d, Serialized, CompactValue, Pow256, FromLittleEndian, FromBigEndian, BigEndian;
    DecodedCases(header.bits);
    if Decoded(header.bits).Ok? {
      DecodedValue(header.bits);
    }
  }
}
