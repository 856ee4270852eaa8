/** Block files written by an independent writer, and what a scan reads back from them. */
module Writing {
  import opened BlockFile
  import opened Bytes
  import opened Header
  import Hex
  import Joining
  import Sha256
  import Words

  /** A block as a node stores it: the mainnet message start, the length, the block. */
  function Framed(block: seq<u8>): seq<u8> { [0xF9, 0xBE, 0xB4, 0xD9] + (LittleEndian(|block|, 4) + block) }

  function FramedAll(blocks: seq<seq<u8>>): seq<u8> {
    if blocks == [] then [] else Framed(blocks[0]) + FramedAll(blocks[1..])
  }

  /** Blocks hold a header and have a length that four bytes can say. */
  predicate Storable(blocks: seq<seq<u8>>) {
    forall i :: 0 <= i < |blocks| ==> 80 <= |blocks[i]| < 0x1_0000_0000
  }

  /** What the record of a block stored at `offset` says, read off the block's own bytes. */
  predicate Records(record: BlockRecord, offset: nat, block: seq<u8>)
    requires |block| >= 80
  {
    && record.offset == offset && record.size == |block|
    && record.hash == Sha256.Sha256d(block[..80]) && record.previous == block[4..36]
  }

  /** One record per block, in order, each where its frame begins. */
  predicate AllRecorded(records: seq<BlockRecord>, offset: nat, blocks: seq<seq<u8>>)
    requires Storable(blocks)
    decreases |blocks|
  {
    if blocks == [] then records == []
    else records != [] && Records(records[0], offset, blocks[0])
         && AllRecorded(records[1..], offset + 8 + |blocks[0]|, blocks[1..])
  }

  lemma RecordOfFrame(plain: seq<u8>, offset: nat, block: seq<u8>, rest: seq<u8>)
    requires 80 <= |block| < 0x1_0000_0000 && offset <= |plain| && plain[offset..] == Framed(block) + rest
    ensures offset + 88 <= |plain| && StopAt(plain, offset) == None && Records(RecordAt(plain, offset), offset, block)
  {
    hide LittleEndian, WordAt, Sha256.Sha256d, Hex.Encoded, Deserialized;
    var frame := Framed(block) + rest;
    assert frame[..4] == [0xF9, 0xBE, 0xB4, 0xD9] && frame[4..8] == LittleEndian(|block|, 4) && frame[8..88] == block[..80];
    Joining.TailSlice(plain, offset, 0, 4);
    Joining.TailSlice(plain, offset, 4, 8);
    Joining.TailSlice(plain, offset, 8, 88);
    WordAtInverse(|block|);
    HeaderOfBlock(block[..80]);
    assert block[..80][4..36] == block[4..36];
    assert plain[offset..offset + 4][0] != ZeroBytes(4)[0];
  }

  /** The header that a block's first 80 bytes are: its hash, and the parent it names. */
  lemma HeaderOfBlock(bytes: HeaderBytes)
    ensures HashOf(Deserialized(bytes)) == Sha256.Sha256d(bytes) && Deserialized(bytes).prevBlock == bytes[4..36]
  {
    hide Sha256.Sha256d, Header.Serialized, WordAt;
    SerializeDeserialized(bytes);
  }

  /** Whatever follows the blocks: too short for a record, or beginning with anything but the message start. */
  predicate EndsBlocks(tail: seq<u8>) { |tail| < 88 || tail[..4] != [0xF9, 0xBE, 0xB4, 0xD9] }

  /** Why a scan stops there. */
  function ReasonFor(tail: seq<u8>): StopReason {
    if |tail| < 88 then EndOfFile
    else if tail[..4] == [0, 0, 0, 0] then Padding
    else Corrupt(Hex.Encoded(tail[..4]))
  }

  lemma StopsAtTail(plain: seq<u8>, offset: nat, tail: seq<u8>)
    requires offset <= |plain| && plain[offset..] == tail && EndsBlocks(tail)
    ensures ScanFrom(plain, offset) == FileScan([], offset, ReasonFor(tail))
  {
    hide Hex.Encoded;
    if |tail| >= 88 {
      assert plain[offset..offset + 4] == plain[offset..][..4];
      assert ZeroBytes(4) == [0, 0, 0, 0];
    }
  }

  lemma {:induction false} ScanOfFrames(plain: seq<u8>, offset: nat, blocks: seq<seq<u8>>, tail: seq<u8>)
    requires Storable(blocks) && offset <= |plain| && plain[offset..] == FramedAll(blocks) + tail && EndsBlocks(tail)
    ensures var scan := ScanFrom(plain, offset);
            && AllRecorded(scan.records, offset, blocks) && scan.stoppedAt == |plain| - |tail| && scan.reason == ReasonFor(tail)
    decreases |blocks|
  {
    hide StopAt, RecordAt, Records, Framed, EndsBlocks, ReasonFor;
    if blocks == [] {
      assert [] + tail == tail;
      StopsAtTail(plain, offset, tail);
    } else {
      hide ScanFrom, AllRecorded;
      NextFrame(plain, offset, blocks, tail);
      ScanOfFrames(plain, offset + 8 + |blocks[0]|, blocks[1..], tail);
      RecordedFirst(plain, offset, blocks);
    }
  }

  lemma NextFrame(plain: seq<u8>, offset: nat, blocks: seq<seq<u8>>, tail: seq<u8>)
    requires Storable(blocks) && blocks != [] && offset <= |plain| && plain[offset..] == FramedAll(blocks) + tail
    ensures StopAt(plain, offset) == None && offset + 88 <= |plain| && Records(RecordAt(plain, offset), offset, blocks[0])
    ensures offset + 8 + |blocks[0]| <= |plain| && plain[offset + 8 + |blocks[0]|..] == FramedAll(blocks[1..]) + tail
  {
    hide StopAt, RecordAt, Records, Framed;
    var block, rest := blocks[0], FramedAll(blocks[1..]) + tail;
    Assoc(Framed(block), FramedAll(blocks[1..]), tail);
    FrameLength(block);
    assert plain[offset..] == Framed(block) + rest;
    hide FramedAll;
    RecordOfFrame(plain, offset, block, rest);
    AfterFront(plain, offset, Framed(block), rest);
  }

  lemma AfterFront(plain: seq<u8>, offset: nat, front: seq<u8>, rest: seq<u8>)
    requires offset <= |plain| && plain[offset..] == front + rest
    ensures offset + |front| <= |plain| && plain[offset + |front|..] == rest
  {
    assert plain[offset + |front|..] == plain[offset..][|front|..];
  }

  lemma RecordedFirst(plain: seq<u8>, offset: nat, blocks: seq<seq<u8>>)
    requires Storable(blocks) && blocks != [] && StopAt(plain, offset) == None && offset + 88 <= |plain|
    requires Records(RecordAt(plain, offset), offset, blocks[0])
    requires AllRecorded(ScanFrom(plain, offset + 8 + |blocks[0]|).records, offset + 8 + |blocks[0]|, blocks[1..])
    ensures var scan, rest := ScanFrom(plain, offset), ScanFrom(plain, offset + 8 + |blocks[0]|);
            AllRecorded(scan.records, offset, blocks) && scan.stoppedAt == rest.stoppedAt && scan.reason == rest.reason
  {
    hide StopAt, RecordAt, Records;
    SizeOfRecord(RecordAt(plain, offset), offset, blocks[0]);
    Joining.ScanStep(plain, offset);
    var scan := ScanFrom(plain, offset);
    assert scan.records[0] == RecordAt(plain, offset)
           && scan.records[1..] == ScanFrom(plain, offset + 8 + |blocks[0]|).records;
  }

  lemma SizeOfRecord(record: BlockRecord, offset: nat, block: seq<u8>)
    requires |block| >= 80 && Records(record, offset, block)
    ensures record.size == |block|
  {
  }

  lemma FrameLength(block: seq<u8>)
    ensures |Framed(block)| == 8 + |block|
  {
  }

  /**
   * Scanning reads back what was written, under every key: one record per block, in order, at its own offset, with
   * its length, the double hash of its first 80 bytes and the parent those name; and it stops where the blocks end,
   * at the end of the file, at padding, or at the four bytes it found instead of a record.
   */
  lemma ScanReadsBack(blocks: seq<seq<u8>>, tail: seq<u8>, key: Key, file: File)
    requires Storable(blocks) && EndsBlocks(tail) && file == Keyed(key, FramedAll(blocks) + tail, 0)
    ensures var scan := Scanned(file, key);
            AllRecorded(scan.records, 0, blocks) && scan.stoppedAt == |FramedAll(blocks)| && scan.reason == ReasonFor(tail)
  {
    hide Keyed, ScanFrom, Records, FramedAll, EndsBlocks, ReasonFor;
    var plain := FramedAll(blocks) + tail;
    KeyedTwice(key, plain, 0);
    assert plain[0..] == plain;
    ScanOfFrames(plain, 0, blocks, tail);
  }

  /** Zero padding of any length after the blocks. */
  lemma PaddedFileReadsBack(blocks: seq<seq<u8>>, zeros: nat, key: Key, file: File)
    requires Storable(blocks) && file == Keyed(key, FramedAll(blocks) + ZeroBytes(zeros), 0)
    ensures var scan := Scanned(file, key);
            AllRecorded(scan.records, 0, blocks) && scan.stoppedAt == |FramedAll(blocks)|
            && scan.reason == if zeros >= 88 then Padding else EndOfFile
  {
    hide Keyed, ScanFrom, Records, FramedAll;
    if zeros >= 88 {
      assert ZeroBytes(zeros)[..4] == [0, 0, 0, 0];
    }
    ScanReadsBack(blocks, ZeroBytes(zeros), key, file);
  }

  // ---------------------------------------------------------------- joining written files

  /** Each file holds its blocks and then something that is not a record. */
  ghost predicate Written(files: seq<File>, key: Key, contents: seq<seq<seq<u8>>>) {
    && |contents| == |files|
    && forall i :: 0 <= i < |files| ==> WrittenOne(files[i], key, contents[i])
  }

  ghost predicate WrittenOne(file: File, key: Key, blocks: seq<seq<u8>>) {
    Storable(blocks) && exists tail :: EndsBlocks(tail) && file == Keyed(key, FramedAll(blocks) + tail, 0)
  }

  function Flattened(contents: seq<seq<seq<u8>>>): seq<seq<u8>> {
    if contents == [] then [] else contents[0] + Flattened(contents[1..])
  }

  lemma {:induction false} FramedConcat(a: seq<seq<u8>>, b: seq<seq<u8>>)
    ensures FramedAll(a + b) == FramedAll(a) + FramedAll(b)
  {
    hide Framed;
    if a == [] {
      assert a + b == b;
    } else {
      assert (a + b)[1..] == a[1..] + b;
      FramedConcat(a[1..], b);
      Assoc(Framed(a[0]), FramedAll(a[1..]), FramedAll(b));
    }
  }

  lemma PayloadOfWritten(file: File, key: Key, blocks: seq<seq<u8>>)
    requires WrittenOne(file, key, blocks)
    ensures Scanned(file, key).stoppedAt <= |file| && Payload(file, key) == FramedAll(blocks)
  {
    hide Keyed, ScanFrom, Records, FramedAll, EndsBlocks, ReasonFor, Storable;
    var tail :| EndsBlocks(tail) && file == Keyed(key, FramedAll(blocks) + tail, 0);
    ScanReadsBack(blocks, tail, key, file);
    KeyedTwice(key, FramedAll(blocks) + tail, 0);
    assert (FramedAll(blocks) + tail)[..|FramedAll(blocks)|] == FramedAll(blocks);
  }

  /** Joining block files gives the block file of all their blocks, in order, without the padding between. */
  lemma {:induction false} JoinOfWritten(files: seq<File>, key: Key, contents: seq<seq<seq<u8>>>)
    requires Written(files, key, contents)
    ensures Copyable(files, key) && Joined(files, key) == FramedAll(Flattened(contents))
    decreases |files|
  {
    hide WrittenOne, FramedAll, Payload, Scanned;
    if files != [] {
      PayloadOfWritten(files[0], key, contents[0]);
      assert forall i :: 0 <= i < |files| - 1 ==> files[1..][i] == files[i + 1] && contents[1..][i] == contents[i + 1];
      JoinOfWritten(files[1..], key, contents[1..]);
      FramedConcat(contents[0], Flattened(contents[1..]));
      forall i | 0 <= i < |files| ensures Scanned(files[i], key).stoppedAt <= |files[i]| {
        if i > 0 {
          assert files[i] == files[1..][i - 1];
        }
      }
    } else {
      NoFrames();
    }
  }

  lemma NoFrames()
    ensures FramedAll([]) == []
  {
  }

  /** The same, block by block: where record `i` is, and what it says of block `i`. */
  lemma {:induction false} RecordedAt(records: seq<BlockRecord>, offset: nat, blocks: seq<seq<u8>>, i: nat)
    requires Storable(blocks) && AllRecorded(records, offset, blocks) && i < |blocks|
    ensures |records| == |blocks|
    ensures Records(records[i], offset + |FramedAll(blocks[..i])|, blocks[i])
    decreases |blocks|
  {
    hide Records;
    if i == 0 {
      assert blocks[..0] == [];
      if |blocks| > 1 {
        RecordedAt(records[1..], offset + 8 + |blocks[0]|, blocks[1..], 0);
      }
    } else {
      RecordedAt(records[1..], offset + 8 + |blocks[0]|, blocks[1..], i - 1);
      assert blocks[..i][1..] == blocks[1..][..i - 1];
      FrameLength(blocks[0]);
    }
  }

  /** Zeros stored from position 0 on show the key: byte p of the file is byte p mod 8 of the key. */
  lemma ZerosShowTheKey(key: Key, n: nat, p: nat)
    requires p < n <= 0x1_0000_0000_0000_0000
    ensures Keyed(key, ZeroBytes(n), 0)[p] == key[p % 8]
  {
    hide Words.XorByte;
    ZeroXor(key[p % 8]);
  }

  lemma ZeroXor(b: u8)
    ensures Words.XorByte(0, b) == b
  {
    hide Words.Zip;
    Words.Pow2Values();
    Words.ZipComm(0, b, 8);
    Words.ZipZero(b, 8);
  }
}
