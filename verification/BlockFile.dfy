/** Block files: the position-keyed XOR, the record scanner, and the concatenator. */
module BlockFile {
  import opened Bytes
  import opened Header
  import Hex
  import Words

  type Key = s: seq<u8> | |s| == 8 witness ZeroBytes(8)

  const MAINNET_MAGIC: seq<u8> := [0xF9, 0xBE, 0xB4, 0xD9]

  /** A file's length fits its operating system's signed offsets. */
  const MAX_FILE := 0x7FFF_FFFF_FFFF_FFFF

  type File = s: seq<u8> | |s| <= MAX_FILE

  // ---------------------------------------------------------------- obfuscation

  predicate IsActive(key: Key) { key != ZeroBytes(8) }

  /** The key byte for an absolute position; positions wrap at 64 bits. */
  function KeyByte(key: Key, position: nat): u8 { key[position % 0x1_0000_0000_0000_0000 % 8] }

  /** `data` as it is stored from `offset` on, and equally what stored bytes decode to. */
  function Keyed(key: Key, data: seq<u8>, offset: nat): (s: seq<u8>)
    ensures |s| == |data|
  {
    seq(|data|, i requires 0 <= i < |data| => Words.XorByte(data[i], KeyByte(key, offset + i)))
  }

  /** XORs a buffer in place, starting at its position in the file; an all-zero key is skipped. */
  method Apply(key: Key, buffer: array<u8>, length: nat, fileOffset: u64)
    requires length <= buffer.Length
    modifies buffer
    ensures buffer[..length] == Keyed(key, old(buffer[..length]), fileOffset)
    ensures buffer[length..] == old(buffer[length..])
  {
    hide Words.XorByte;
    if !IsActive(key) {
      KeyedByZero(key, buffer[..length], fileOffset);
      return;
    }
    for index := 0 to length
      invariant forall i :: 0 <= i < index ==> buffer[i] == Words.XorByte(old(buffer[i]), KeyByte(key, fileOffset + i))
      invariant forall i :: index <= i < buffer.Length ==> buffer[i] == old(buffer[i])
    {
      var position := (fileOffset + index) % 0x1_0000_0000_0000_0000;
      buffer[index] := Words.XorByte(buffer[index], key[position % 8]);
    }
    assert buffer[length..] == old(buffer[length..]);
  }

  lemma KeyedByZero(key: Key, data: seq<u8>, offset: nat)
    requires !IsActive(key)
    ensures Keyed(key, data, offset) == data
  {
    hide Words.XorByte;
    forall i | 0 <= i < |data| ensures Keyed(key, data, offset)[i] == data[i] {
      Words.XorByteZero(data[i]);
    }
  }

  /** Applying the key twice at one position restores the data. */
  lemma KeyedTwice(key: Key, data: seq<u8>, offset: nat)
    ensures Keyed(key, Keyed(key, data, offset), offset) == data
  {
    hide Words.XorByte;
    forall i | 0 <= i < |data| ensures Keyed(key, Keyed(key, data, offset), offset)[i] == data[i] {
      Words.XorByteTwice(data[i], KeyByte(key, offset + i));
    }
  }

  /** Any slice decodes on its own, given its position. */
  lemma KeyedSlice(key: Key, data: seq<u8>, offset: nat, a: nat, b: nat)
    requires a <= b <= |data|
    ensures Keyed(key, data, offset)[a..b] == Keyed(key, data[a..b], offset + a)
  {
    hide Words.XorByte, KeyByte;
    forall i | 0 <= i < b - a ensures Keyed(key, data, offset)[a..b][i] == Keyed(key, data[a..b], offset + a)[i] {
      assert offset + (a + i) == offset + a + i;
    }
  }

  lemma KeyedConcat(key: Key, a: seq<u8>, b: seq<u8>, offset: nat)
    ensures Keyed(key, a + b, offset) == Keyed(key, a, offset) + Keyed(key, b, offset + |a|)
  {
    hide Words.XorByte, KeyByte;
    var whole, parts := Keyed(key, a + b, offset), Keyed(key, a, offset) + Keyed(key, b, offset + |a|);
    forall i | 0 <= i < |a + b| ensures whole[i] == parts[i] {
      if i >= |a| {
        assert offset + i == offset + |a| + (i - |a|);
      }
    }
  }

  // ---------------------------------------------------------------- scanning

  datatype BlockRecord = BlockRecord(offset: nat, size: u32, hash: Hash, previous: Hash)

  datatype StopReason = EndOfFile | Padding | Corrupt(found: string)

  datatype FileScan = FileScan(records: seq<BlockRecord>, stoppedAt: nat, reason: StopReason)

  /** The record whose magic stands at `offset` of plain bytes. */
  function RecordAt(plain: seq<u8>, offset: nat): BlockRecord
    requires offset + 88 <= |plain|
  {
    var header := Deserialized(plain[offset + 8..offset + 88]);
    BlockRecord(offset, WordAt(plain[offset + 4..offset + 8]), HashOf(header), header.prevBlock)
  }

  function StopAt(plain: seq<u8>, offset: nat): Option<StopReason> {
    if offset + 88 > |plain| then Some(EndOfFile)
    else if plain[offset..offset + 4] == ZeroBytes(4) then Some(Padding)
    else if plain[offset..offset + 4] != MAINNET_MAGIC then Some(Corrupt(Hex.Encoded(plain[offset..offset + 4])))
    else None
  }

  /** Scanning plain bytes from `offset` on. */
  function ScanFrom(plain: seq<u8>, offset: nat): (scan: FileScan)
    ensures scan.stoppedAt >= offset
    decreases |plain| - offset
  {
    match StopAt(plain, offset)
    case Some(reason) => FileScan([], offset, reason)
    case None =>
      var record := RecordAt(plain, offset);
      var rest := ScanFrom(plain, offset + 8 + record.size);
      FileScan([record] + rest.records, rest.stoppedAt, rest.reason)
  }

  /** What scanning a stored file under `key` finds. */
  function Scanned(file: File, key: Key): FileScan { ScanFrom(Keyed(key, file, 0), 0) }

  /** Reads `count` bytes at `offset` of a stored file and decodes them. */
  method ReadDecoded(file: File, key: Key, offset: nat, count: nat) returns (bytes: seq<u8>)
    requires offset + count <= |file|
    ensures bytes == Keyed(key, file, 0)[offset..offset + count]
  {
    var buffer := new u8[count](i requires 0 <= i < count => file[offset + i]);
    assert buffer[..] == file[offset..offset + count] == buffer[..count];
    KeyedSlice(key, file, 0, offset, offset + count);
    Apply(key, buffer, count, offset);
    bytes := buffer[..];
    assert bytes == buffer[..count];
  }

  lemma SliceOfSlice<T>(s: seq<T>, a: nat, b: nat, c: nat, d: nat)
    requires a <= b <= |s| && c <= d <= b - a
    ensures s[a..b][c..d] == s[a + c..a + d]
  {
    forall i | 0 <= i < d - c ensures s[a..b][c..d][i] == s[a + c..a + d][i] {
      assert s[a..b][c + i] == s[a + (c + i)];
    }
  }

  lemma PrefixSlices(plain: seq<u8>, offset: nat)
    requires offset + 8 <= |plain|
    ensures plain[offset..offset + 8][..4] == plain[offset..offset + 4]
    ensures plain[offset..offset + 8][4..8] == plain[offset + 4..offset + 8]
  {
    SliceOfSlice(plain, offset, offset + 8, 0, 4);
    SliceOfSlice(plain, offset, offset + 8, 4, 8);
  }

  /** One turn of the scan: the reason to stop at `offset`, or the record there. */
  method ReadRecord(file: File, key: Key, offset: nat) returns (stop: Option<StopReason>, record: BlockRecord)
    ensures |Keyed(key, file, 0)| == |file|
    ensures stop == StopAt(Keyed(key, file, 0), offset)
    ensures stop.None? ==> offset + 88 <= |file| && record == RecordAt(Keyed(key, file, 0), offset)
  {
    hide HashOf, Deserialized, Keyed, Hex.Encoded, WordAt;
    record := BlockRecord(offset, 0, ZERO_HASH, ZERO_HASH);
    if offset + 88 > |file| {
      return Some(EndOfFile), record;
    }
    var prefix := ReadDecoded(file, key, offset, 8);
    PrefixSlices(Keyed(key, file, 0), offset);
    var magic := prefix[..4];
    if magic == ZeroBytes(4) {
      return Some(Padding), record;
    }
    if magic != MAINNET_MAGIC {
      return Some(Corrupt(Hex.Encoded(magic))), record;
    }
    var size := WordAt(prefix[4..8]);
    var headerBytes := ReadDecoded(file, key, offset + 8, 80);
    var header := Deserialized(headerBytes);
    stop := None;
    record := BlockRecord(offset, size, HashOf(header), header.prevBlock);
  }

  /** Scans one block file: only the first 88 bytes of each record are read. */
  method ScanFile(file: File, key: Key) returns (scan: FileScan)
    ensures scan == Scanned(file, key)
  {
    hide Keyed, StopAt, RecordAt;
    ghost var plain := Keyed(key, file, 0);
    var records: seq<BlockRecord> := [];
    var offset := 0;
    assert [] + ScanFrom(plain, 0).records == ScanFrom(plain, 0).records;
    while true
      invariant ScanFrom(plain, 0) == Prefixed(records, ScanFrom(plain, offset))
      decreases |file| - offset
    {
      var stop, record := ReadRecord(file, key, offset);
      if stop.Some? {
        assert records + [] == records;
        return FileScan(records, offset, stop.value);
      }
      RecordOffset(plain, offset);
      Assoc(records, [record], ScanFrom(plain, offset + 8 + record.size).records);
      records := records + [record];
      offset := offset + 8 + record.size;
    }
  }

  lemma RecordOffset(plain: seq<u8>, offset: nat)
    ensures StopAt(plain, offset) == None ==> offset + 88 <= |plain| && RecordAt(plain, offset).offset == offset
  {
    hide HashOf, Deserialized, Hex.Encoded, WordAt;
  }

  function Prefixed(records: seq<BlockRecord>, scan: FileScan): FileScan {
    FileScan(records + scan.records, scan.stoppedAt, scan.reason)
  }

  // ---------------------------------------------------------------- concatenating

  /** The plain bytes one input contributes: everything up to where its scan stopped. */
  function Payload(file: File, key: Key): seq<u8> {
    var stop := Scanned(file, key).stoppedAt;
    Keyed(key, file, 0)[..if stop <= |file| then stop else |file|]
  }

  /** The concatenation can be read: every input's payload lies within its file. */
  predicate Copyable(files: seq<File>, key: Key) {
    forall i :: 0 <= i < |files| ==> Scanned(files[i], key).stoppedAt <= |files[i]|
  }

  function Joined(files: seq<File>, key: Key): seq<u8> {
    if files == [] then [] else Payload(files[0], key) + Joined(files[1..], key)
  }

  function TotalLength(files: seq<File>): nat {
    if files == [] then 0 else |files[0]| + TotalLength(files[1..])
  }

  /**
   * Copies the first `payload` bytes of one input in chunks, decoding each chunk at its old position and
   * encoding it again at its new one.
   */
  method CopyPayload(file: File, key: Key, payload: nat, chunk: nat, output: seq<u8>) returns (longer: seq<u8>)
    requires payload <= |file| && chunk > 0 && |output| + payload <= U64_MAX
    ensures longer == output + Keyed(key, Keyed(key, file, 0)[..payload], |output|)
  {
    hide Keyed;
    longer := output;
    var copied := 0;
    ghost var plain := Keyed(key, file, 0)[..payload];
    assert Keyed(key, plain[..0], |output|) == [];
    while copied < payload
      invariant copied <= payload && |longer| == |output| + copied
      invariant longer == output + Keyed(key, plain[..copied], |output|)
    {
      var want := if chunk <= payload - copied then chunk else payload - copied;
      var buffer := new u8[want](i requires 0 <= i < want => file[copied + i]);
      assert buffer[..want] == file[copied..copied + want];
      Apply(key, buffer, want, copied);
      ChunkStep(key, file, payload, copied, want, |output|);
      Apply(key, buffer, want, |longer|);
      Assoc(output, Keyed(key, plain[..copied], |output|), buffer[..want]);
      longer := longer + buffer[..want];
      copied := copied + want;
    }
    assert plain[..copied] == plain;
  }

  lemma ChunkStep(key: Key, file: File, payload: nat, copied: nat, want: nat, base: nat)
    requires copied + want <= payload <= |file|
    ensures var plain := Keyed(key, file, 0)[..payload];
            && Keyed(key, file[copied..copied + want], copied) == plain[copied..copied + want]
            && Keyed(key, plain[..copied + want], base)
               == Keyed(key, plain[..copied], base) + Keyed(key, plain[copied..copied + want], base + copied)
  {
    hide Keyed;
    var plain := Keyed(key, file, 0)[..payload];
    KeyedSlice(key, file, 0, copied, copied + want);
    assert plain[copied..copied + want] == Keyed(key, file, 0)[copied..copied + want];
    assert plain[..copied + want] == plain[..copied] + plain[copied..copied + want];
    KeyedConcat(key, plain[..copied], plain[copied..copied + want], base);
  }

  /** Joins block files into one; no input, or a payload that runs past its file's end, is an error. */
  method Concatenate(files: seq<File>, key: Key, chunk: nat) returns (output: Option<seq<u8>>)
    requires chunk > 0 && TotalLength(files) <= U64_MAX
    ensures output.Some? <==> files != [] && Copyable(files, key)
    ensures output.Some? ==> output.value == Keyed(key, Joined(files, key), 0)
  {
    hide Keyed, Scanned;
    if files == [] {
      return None;
    }
    var written: seq<u8> := [];
    ghost var plain: seq<u8> := [];
    assert Keyed(key, plain, 0) == [] && files[0..] == files;
    for k := 0 to |files|
      invariant forall i :: 0 <= i < k ==> Scanned(files[i], key).stoppedAt <= |files[i]|
      invariant written == Keyed(key, plain, 0) && |written| + TotalLength(files[k..]) <= TotalLength(files)
      invariant plain + Joined(files[k..], key) == Joined(files, key)
    {
      var summary := ScanFile(files[k], key);
      if summary.stoppedAt > |files[k]| {
        return None;
      }
      var payload := summary.stoppedAt;
      JoinStep(files, key, k, plain);
      KeyedConcat(key, plain, Payload(files[k], key), 0);
      written := CopyPayload(files[k], key, payload, chunk, written);
      plain := plain + Payload(files[k], key);
    }
    assert plain + [] == plain;
    output := Some(written);
  }

  lemma JoinStep(files: seq<File>, key: Key, k: nat, plain: seq<u8>)
    requires k < |files|
    ensures TotalLength(files[k..]) == |files[k]| + TotalLength(files[k + 1..])
    ensures plain + Joined(files[k..], key) == plain + Payload(files[k], key) + Joined(files[k + 1..], key)
  {
    hide Payload;
    assert files[k..][1..] == files[k + 1..];
    Assoc(plain, Payload(files[k], key), Joined(files[k + 1..], key));
  }
}
