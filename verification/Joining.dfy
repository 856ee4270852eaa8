/** What a scan finds in the file that joins others: exactly when every record survives the joining. */
module Joining {
  import opened BlockFile
  import opened Bytes
  import opened Header

  function Shifted(records: seq<BlockRecord>, delta: nat): (r: seq<BlockRecord>)
    ensures |r| == |records|
  {
    seq(|records|, i requires 0 <= i < |records| => records[i].(offset := records[i].offset + delta))
  }

  /** The inputs' records in order, each file's offsets moved by the bytes already written. */
  function JoinedRecords(files: seq<File>, key: Key, base: nat): seq<BlockRecord> {
    if files == [] then []
    else Shifted(Scanned(files[0], key).records, base)
         + JoinedRecords(files[1..], key, base + |Payload(files[0], key)|)
  }

  /** No record's 88 leading bytes run past where the scan stopped, which is where copying stops. */
  predicate Whole(scan: FileScan) {
    forall i :: 0 <= i < |scan.records| ==> scan.records[i].offset + 88 <= scan.stoppedAt
  }

  /** A declared size that covers at least the header is enough. */
  lemma {:induction false} WellSizedIsWhole(plain: seq<u8>, offset: nat)
    requires forall i :: 0 <= i < |ScanFrom(plain, offset).records| ==> ScanFrom(plain, offset).records[i].size >= 80
    ensures Whole(ScanFrom(plain, offset))
    decreases |plain| - offset
  {
    hide StopAt, RecordAt;
    if StopAt(plain, offset) == None {
      RecordOffset(plain, offset);
      var scan := ScanFrom(plain, offset);
      var next := offset + 8 + RecordAt(plain, offset).size;
      var rest := ScanFrom(plain, next);
      assert scan.records == [RecordAt(plain, offset)] + rest.records;
      assert scan.records[0] == RecordAt(plain, offset);
      assert forall i :: 0 <= i < |rest.records| ==> rest.records[i] == scan.records[i + 1];
      WellSizedIsWhole(plain, next);
    }
  }

  /** The part of a record's 88 leading bytes that copying up to `stop` leaves behind. */
  function CutOff(plain: seq<u8>, stop: nat, offset: nat): seq<u8> {
    if stop < offset + 88 <= |plain| then plain[stop..offset + 88] else []
  }

  /** Whatever a record lost at the end of its payload, `after` begins with. */
  predicate Continues(plain: seq<u8>, scan: FileScan, after: seq<u8>) {
    forall i :: 0 <= i < |scan.records| ==> CutOff(plain, scan.stoppedAt, scan.records[i].offset) <= after
  }

  /** The inputs after each one begin with whatever its records lost. */
  ghost predicate AllContinue(files: seq<File>, key: Key) {
    forall i :: 0 <= i < |files| ==> Continues(Keyed(key, files[i], 0), Scanned(files[i], key), Joined(files[i + 1..], key))
  }

  lemma WholeContinues(plain: seq<u8>, scan: FileScan, after: seq<u8>)
    requires Whole(scan)
    ensures Continues(plain, scan, after)
  {
  }

  lemma TailSlice(s: seq<u8>, at: nat, from: nat, to: nat)
    requires at + to <= |s| && from <= to
    ensures s[at..][from..to] == s[at + from..at + to]
  {
  }

  /** The scanner's decision depends only on the 88 bytes in front of it. */
  lemma SameWindow(a: seq<u8>, i: nat, b: seq<u8>, j: nat)
    requires i + 88 <= |a| && j + 88 <= |b| && a[i..i + 88] == b[j..j + 88]
    ensures StopAt(a, i) == StopAt(b, j)
    ensures RecordAt(a, i) == RecordAt(b, j).(offset := i)
  {
    hide HashOf, Deserialized, Hex.Encoded, WordAt;
    SliceOfSlice(a, i, i + 88, 0, 4);
    SliceOfSlice(b, j, j + 88, 0, 4);
    SliceOfSlice(a, i, i + 88, 4, 8);
    SliceOfSlice(b, j, j + 88, 4, 8);
    SliceOfSlice(a, i, i + 88, 8, 88);
    SliceOfSlice(b, j, j + 88, 8, 88);
  }

  /** A window is found again in a longer text exactly when what was cut off it follows its payload. */
  lemma EmbeddedWindow(before: seq<u8>, plain: seq<u8>, offset: nat, stop: nat, after: seq<u8>)
    requires offset <= stop <= |plain| && offset + 88 <= |plain|
    ensures var whole, at := before + plain[..stop] + after, |before| + offset;
            (at + 88 <= |whole| && whole[at..at + 88] == plain[offset..offset + 88]) <==> CutOff(plain, stop, offset) <= after
  {
    var whole, at := before + plain[..stop] + after, |before| + offset;
    if offset + 88 > stop {
      var n := offset + 88 - stop;
      var kept := plain[offset..stop];
      assert plain[offset..offset + 88] == kept + plain[stop..offset + 88];
      if at + 88 <= |whole| {
        assert whole[at..at + 88] == kept + after[..n];
        assert (kept + after[..n])[|kept|..] == after[..n];
        assert (kept + plain[stop..offset + 88])[|kept|..] == plain[stop..offset + 88];
      }
    } else {
      var found, window := whole[at..at + 88], plain[offset..offset + 88];
      forall i | 0 <= i < 88 ensures found[i] == window[i] {
        assert whole[at + i] == plain[..stop][offset + i];
      }
      assert found == window;
    }
  }

  /** A scan reports only records whose 88 leading bytes are there, that begin before its end, and that read as reported. */
  ghost predicate Read(plain: seq<u8>, records: seq<BlockRecord>) {
    forall i :: 0 <= i < |records| ==>
      records[i].offset + 88 <= |plain| && RecordAt(plain, records[i].offset) == records[i]
  }

  lemma {:induction false} RecordsRead(plain: seq<u8>, offset: nat)
    ensures var scan := ScanFrom(plain, offset);
            Read(plain, scan.records) && forall i :: 0 <= i < |scan.records| ==> scan.records[i].offset + 8 <= scan.stoppedAt
    decreases |plain| - offset
  {
    hide StopAt, RecordAt;
    if StopAt(plain, offset) == None {
      RecordOffset(plain, offset);
      RecordsRead(plain, offset + 8 + RecordAt(plain, offset).size);
    }
  }

  /** Inside a longer byte string whose rest continues them, the records of a scan are found again, shifted. */
  lemma {:induction false} ScanEmbedded(before: seq<u8>, plain: seq<u8>, offset: nat, after: seq<u8>)
    requires var scan := ScanFrom(plain, offset); scan.stoppedAt <= |plain| && Continues(plain, scan, after)
    ensures var scan := ScanFrom(plain, offset);
            var whole := before + plain[..scan.stoppedAt] + after;
            ScanFrom(whole, |before| + offset)
            == Prefixed(Shifted(scan.records, |before|), ScanFrom(whole, |before| + scan.stoppedAt))
    decreases |plain| - offset
  {
    hide StopAt, RecordAt, CutOff;
    var scan := ScanFrom(plain, offset);
    var stop := scan.stoppedAt;
    var whole := before + plain[..stop] + after;
    if StopAt(plain, offset) == None {
      RecordOffset(plain, offset);
      var record := RecordAt(plain, offset);
      var next := offset + 8 + record.size;
      var rest := ScanFrom(plain, next);
      assert scan.records == [record] + rest.records;
      assert scan.records[0] == record;
      assert forall i :: 0 <= i < |rest.records| ==> rest.records[i] == scan.records[i + 1];
      ScanEmbedded(before, plain, next, after);
      var at := |before| + offset;
      EmbeddedWindow(before, plain, offset, stop, after);
      SameWindow(whole, at, plain, offset);
      ShiftFirst(record, rest.records, |before|);
      Assoc(Shifted([record], |before|), Shifted(rest.records, |before|), ScanFrom(whole, |before| + stop).records);
      ScanStep(whole, at);
    } else {
      assert Shifted(scan.records, |before|) == [];
      assert [] + ScanFrom(whole, |before| + stop).records == ScanFrom(whole, |before| + stop).records;
    }
  }

  lemma ScanStep(plain: seq<u8>, offset: nat)
    requires StopAt(plain, offset) == None
    ensures offset + 88 <= |plain|
    ensures ScanFrom(plain, offset)
            == Prefixed([RecordAt(plain, offset)], ScanFrom(plain, offset + 8 + RecordAt(plain, offset).size))
  {
    hide RecordAt;
    RecordOffset(plain, offset);
  }

  lemma ShiftFirst(record: BlockRecord, rest: seq<BlockRecord>, delta: nat)
    ensures Shifted([record] + rest, delta) == Shifted([record], delta) + Shifted(rest, delta)
    ensures Shifted([record], delta) == [record.(offset := record.offset + delta)]
  {
  }

  lemma EndStops(plain: seq<u8>)
    ensures ScanFrom(plain, |plain|) == FileScan([], |plain|, EndOfFile)
  {
  }

  lemma RestOfFiles(files: seq<File>, key: Key)
    requires files != [] && Copyable(files, key)
    ensures Copyable(files[1..], key)
  {
    hide Scanned;
    assert forall i :: 0 <= i < |files| - 1 ==> files[1..][i] == files[i + 1];
  }

  lemma NoFilesContinue(files: seq<File>, key: Key)
    requires files == []
    ensures AllContinue(files, key)
  {
  }

  lemma AllContinueSplits(files: seq<File>, key: Key)
    requires files != []
    ensures AllContinue(files, key) <==>
            Continues(Keyed(key, files[0], 0), Scanned(files[0], key), Joined(files[1..], key)) && AllContinue(files[1..], key)
  {
    hide Continues, Keyed, Scanned, Joined;
    var rest := files[1..];
    forall i | 0 <= i < |rest| ensures rest[i] == files[i + 1] && rest[i + 1..] == files[i + 1 + 1..] {
    }
    if AllContinue(files, key) {
      forall i | 0 <= i < |rest| ensures Continues(Keyed(key, rest[i], 0), Scanned(rest[i], key), Joined(rest[i + 1..], key)) {
        assert rest[i + 1..] == files[i + 1 + 1..];
      }
    }
    if Continues(Keyed(key, files[0], 0), Scanned(files[0], key), Joined(rest, key)) && AllContinue(rest, key) {
      forall i | 0 <= i < |files|
        ensures Continues(Keyed(key, files[i], 0), Scanned(files[i], key), Joined(files[i + 1..], key))
      {
        if i > 0 {
          assert rest[i - 1] == files[i] && rest[i - 1 + 1..] == files[i + 1..];
        }
      }
    }
  }

  /** Scanning from where the joined files begin finds all of their records and stops at the very end. */
  lemma {:induction false} ScanJoinedFrom(files: seq<File>, key: Key, before: seq<u8>)
    requires Copyable(files, key) && AllContinue(files, key)
    ensures var whole := before + Joined(files, key);
            ScanFrom(whole, |before|) == FileScan(JoinedRecords(files, key, |before|), |whole|, EndOfFile)
    decreases |files|
  {
    hide StopAt, RecordAt, Keyed, Continues, AllContinue;
    var whole := before + Joined(files, key);
    if files == [] {
      EndStops(whole);
    } else {
      hide ScanFrom;
      var file := files[0];
      var plain := Keyed(key, file, 0);
      var payload := Payload(file, key);
      var tail := Joined(files[1..], key);
      RestOfFiles(files, key);
      AllContinueSplits(files, key);
      assert payload == plain[..ScanFrom(plain, 0).stoppedAt];
      ScanEmbedded(before, plain, 0, tail);
      Assoc(before, payload, tail);
      ScanJoinedFrom(files[1..], key, before + payload);
    }
  }

  /**
   * Scanning a concatenation yields the inputs' records in order, shifted by the bytes already written, and
   * ends cleanly at its total length: for every key, whatever the join offsets are.
   */
  lemma ScanOfConcatenation(files: seq<File>, key: Key, output: File)
    requires Copyable(files, key) && output == Keyed(key, Joined(files, key), 0) && AllContinue(files, key)
    ensures Scanned(output, key) == FileScan(JoinedRecords(files, key, 0), |output|, EndOfFile)
  {
    hide Keyed, ScanFrom, AllContinue;
    KeyedTwice(key, Joined(files, key), 0);
    assert [] + Joined(files, key) == Joined(files, key);
    ScanJoinedFrom(files, key, []);
  }

  /** Whole inputs are joined without loss, whatever follows them. */
  lemma WholeFilesSurvive(files: seq<File>, key: Key, output: File)
    requires Copyable(files, key) && output == Keyed(key, Joined(files, key), 0)
    requires forall i :: 0 <= i < |files| ==> Whole(Scanned(files[i], key))
    ensures Scanned(output, key) == FileScan(JoinedRecords(files, key, 0), |output|, EndOfFile)
  {
    hide Keyed, Scanned, Whole, Continues, Joined;
    forall i | 0 <= i < |files|
      ensures Continues(Keyed(key, files[i], 0), Scanned(files[i], key), Joined(files[i + 1..], key))
    {
      WholeContinues(Keyed(key, files[i], 0), Scanned(files[i], key), Joined(files[i + 1..], key));
    }
    ScanOfConcatenation(files, key, output);
  }

  // ---------------------------------------------------------------- exactly when records survive

  /** The 88 bytes each record was read from. */
  function Windows(plain: seq<u8>, records: seq<BlockRecord>): (w: seq<seq<u8>>)
    ensures |w| == |records|
  {
    seq(|records|, i requires 0 <= i < |records| =>
      if records[i].offset + 88 <= |plain| then plain[records[i].offset..records[i].offset + 88] else [])
  }

  /** The 88 bytes of every input's records, in order. */
  function JoinedWindows(files: seq<File>, key: Key): seq<seq<u8>> {
    if files == [] then []
    else Windows(Keyed(key, files[0], 0), Scanned(files[0], key).records) + JoinedWindows(files[1..], key)
  }

  lemma WindowIff(before: seq<u8>, plain: seq<u8>, after: seq<u8>, stop: nat, records: seq<BlockRecord>, i: nat)
    requires i < |records| && records[i].offset <= stop <= |plain| && records[i].offset + 88 <= |plain|
    ensures Windows(before + plain[..stop] + after, Shifted(records, |before|))[i] == Windows(plain, records)[i]
            <==> CutOff(plain, stop, records[i].offset) <= after
  {
    hide CutOff;
    EmbeddedWindow(before, plain, records[i].offset, stop, after);
  }

  lemma FirstWindowsIff(before: seq<u8>, plain: seq<u8>, after: seq<u8>)
    requires ScanFrom(plain, 0).stoppedAt <= |plain|
    ensures var scan := ScanFrom(plain, 0);
            Windows(before + plain[..scan.stoppedAt] + after, Shifted(scan.records, |before|)) == Windows(plain, scan.records)
            <==> Continues(plain, scan, after)
  {
    hide ScanFrom, RecordAt, CutOff, Windows, Shifted;
    RecordsRead(plain, 0);
    var scan := ScanFrom(plain, 0);
    var whole := before + plain[..scan.stoppedAt] + after;
    var moved, original := Windows(whole, Shifted(scan.records, |before|)), Windows(plain, scan.records);
    forall i | 0 <= i < |scan.records|
      ensures moved[i] == original[i] <==> CutOff(plain, scan.stoppedAt, scan.records[i].offset) <= after
    {
      WindowIff(before, plain, after, scan.stoppedAt, scan.records, i);
    }
  }

  lemma WindowsConcat(plain: seq<u8>, a: seq<BlockRecord>, b: seq<BlockRecord>)
    ensures Windows(plain, a + b) == Windows(plain, a) + Windows(plain, b)
  {
  }

  lemma SameParts<T>(a: seq<T>, b: seq<T>, c: seq<T>, d: seq<T>)
    requires |a| == |c|
    ensures a + b == c + d <==> a == c && b == d
  {
    if a + b == c + d {
      assert a == (a + b)[..|a|] && b == (a + b)[|a|..] && c == (c + d)[..|c|] && d == (c + d)[|c|..];
    }
  }

  lemma {:induction false} WindowsIff(files: seq<File>, key: Key, before: seq<u8>)
    requires Copyable(files, key)
    ensures Windows(before + Joined(files, key), JoinedRecords(files, key, |before|)) == JoinedWindows(files, key)
            <==> AllContinue(files, key)
    decreases |files|
  {
    hide Keyed, ScanFrom, Continues, AllContinue, Windows, Shifted;
    if files == [] {
      assert Windows(before + Joined(files, key), []) == [];
      NoFilesContinue(files, key);
    } else {
      var plain := Keyed(key, files[0], 0);
      var scan := ScanFrom(plain, 0);
      var payload, tail := Payload(files[0], key), Joined(files[1..], key);
      var whole := before + Joined(files, key);
      RestOfFiles(files, key);
      AllContinueSplits(files, key);
      Assoc(before, payload, tail);
      WindowsIff(files[1..], key, before + payload);
      FirstWindowsIff(before, plain, tail);
      WindowsConcat(whole, Shifted(scan.records, |before|), JoinedRecords(files[1..], key, |before| + |payload|));
      SameParts(Windows(whole, Shifted(scan.records, |before|)),
                Windows(whole, JoinedRecords(files[1..], key, |before| + |payload|)),
                Windows(plain, scan.records), JoinedWindows(files[1..], key));
    }
  }

  /**
   * The exact condition, for any inputs: every record is found again, read from the same 88 bytes, exactly when
   * the files after each input begin with whatever was cut off its records.
   */
  lemma WindowsSurviveIff(files: seq<File>, key: Key, output: File)
    requires Copyable(files, key) && output == Keyed(key, Joined(files, key), 0)
    ensures var records := Scanned(output, key).records;
            (records == JoinedRecords(files, key, 0) && Windows(Keyed(key, output, 0), records) == JoinedWindows(files, key))
            <==> AllContinue(files, key)
  {
    hide Keyed, ScanFrom, AllContinue, Windows;
    KeyedTwice(key, Joined(files, key), 0);
    assert [] + Joined(files, key) == Joined(files, key);
    WindowsIff(files, key, []);
    if AllContinue(files, key) {
      ScanOfConcatenation(files, key, output);
    }
  }

  /** Two different headers have one hash. */
  ghost predicate HeadersCollide() {
    exists x: HeaderBytes, y: HeaderBytes :: x != y && HashOf(Deserialized(x)) == HashOf(Deserialized(y))
  }

  lemma SameRecordSameWindow(whole: seq<u8>, at: nat, plain: seq<u8>, offset: nat)
    requires at + 88 <= |whole| && offset + 88 <= |plain| && whole[at..at + 8] == plain[offset..offset + 8]
    requires RecordAt(whole, at) == RecordAt(plain, offset).(offset := at) && !HeadersCollide()
    ensures whole[at..at + 88] == plain[offset..offset + 88]
  {
    hide HashOf, Deserialized, WordAt;
    var x: HeaderBytes, y: HeaderBytes := whole[at + 8..at + 88], plain[offset + 8..offset + 88];
    assert x == y;
    assert whole[at..at + 88] == whole[at..at + 8] + x;
    assert plain[offset..offset + 88] == plain[offset..offset + 8] + y;
  }

  lemma FirstRecordsContinue(before: seq<u8>, plain: seq<u8>, after: seq<u8>)
    requires ScanFrom(plain, 0).stoppedAt <= |plain| && !HeadersCollide()
    requires Read(before + plain[..ScanFrom(plain, 0).stoppedAt] + after, Shifted(ScanFrom(plain, 0).records, |before|))
    ensures Continues(plain, ScanFrom(plain, 0), after)
  {
    hide ScanFrom, RecordAt, CutOff, HeadersCollide;
    RecordsRead(plain, 0);
    var scan := ScanFrom(plain, 0);
    var whole := before + plain[..scan.stoppedAt] + after;
    forall i | 0 <= i < |scan.records| ensures CutOff(plain, scan.stoppedAt, scan.records[i].offset) <= after {
      var offset := scan.records[i].offset;
      var at := |before| + offset;
      var moved := Shifted(scan.records, |before|)[i];
      assert moved == scan.records[i].(offset := at);
      assert RecordAt(whole, at) == moved;
      assert whole[at..at + 8] == plain[offset..offset + 8];
      SameRecordSameWindow(whole, at, plain, offset);
      EmbeddedWindow(before, plain, offset, scan.stoppedAt, after);
    }
  }

  lemma {:induction false} RecordsContinue(files: seq<File>, key: Key, before: seq<u8>)
    requires Copyable(files, key) && !HeadersCollide()
    requires Read(before + Joined(files, key), JoinedRecords(files, key, |before|))
    ensures AllContinue(files, key)
    decreases |files|
  {
    hide Keyed, ScanFrom, Continues, AllContinue, RecordAt, HeadersCollide, Shifted;
    if files == [] {
      NoFilesContinue(files, key);
    } else {
      var plain := Keyed(key, files[0], 0);
      var scan := ScanFrom(plain, 0);
      var payload, tail := Payload(files[0], key), Joined(files[1..], key);
      var first, rest := Shifted(scan.records, |before|), JoinedRecords(files[1..], key, |before| + |payload|);
      RestOfFiles(files, key);
      AllContinueSplits(files, key);
      Assoc(before, payload, tail);
      assert JoinedRecords(files, key, |before|) == first + rest;
      assert forall i :: 0 <= i < |first| ==> (first + rest)[i] == first[i];
      assert forall i :: 0 <= i < |rest| ==> (first + rest)[|first| + i] == rest[i];
      FirstRecordsContinue(before, plain, tail);
      RecordsContinue(files[1..], key, before + payload);
    }
  }

  /** The same condition decides the records alone, unless two different headers share a hash. */
  lemma RecordsSurviveIff(files: seq<File>, key: Key, output: File)
    requires Copyable(files, key) && output == Keyed(key, Joined(files, key), 0)
    ensures AllContinue(files, key) ==> Scanned(output, key).records == JoinedRecords(files, key, 0)
    ensures Scanned(output, key).records == JoinedRecords(files, key, 0) ==> AllContinue(files, key) || HeadersCollide()
  {
    hide Keyed, ScanFrom, AllContinue, HeadersCollide, Read;
    KeyedTwice(key, Joined(files, key), 0);
    assert [] + Joined(files, key) == Joined(files, key);
    if AllContinue(files, key) {
      ScanOfConcatenation(files, key, output);
    } else if Scanned(output, key).records == JoinedRecords(files, key, 0) && !HeadersCollide() {
      RecordsRead(Joined(files, key), 0);
      RecordsContinue(files, key, []);
    }
  }

  /** A record cut off in the last input sticks out of the joined bytes. */
  lemma {:induction false} CutSticksOut(files: seq<File>, key: Key, base: nat) returns (j: nat)
    requires files != [] && Copyable(files, key) && !Whole(Scanned(files[|files| - 1], key))
    ensures j < |JoinedRecords(files, key, base)|
    ensures JoinedRecords(files, key, base)[j].offset + 88 > base + |Joined(files, key)|
    decreases |files|
  {
    hide Scanned, Keyed;
    var first := Scanned(files[0], key);
    var rest := JoinedRecords(files[1..], key, base + |Payload(files[0], key)|);
    assert JoinedRecords(files, key, base) == Shifted(first.records, base) + rest;
    if |files| == 1 {
      j :| 0 <= j < |first.records| && first.records[j].offset + 88 > first.stoppedAt;
      assert Joined(files[1..], key) == [];
    } else {
      forall i | 0 <= i < |files[1..]| ensures Scanned(files[1..][i], key).stoppedAt <= |files[1..][i]| {
        assert files[1..][i] == files[i + 1];
      }
      var i := CutSticksOut(files[1..], key, base + |Payload(files[0], key)|);
      j := |first.records| + i;
    }
  }

  /** A record cut off at the very end is always lost, whatever the hash function does. */
  lemma LastMustBeWhole(files: seq<File>, key: Key, output: File)
    requires files != [] && Copyable(files, key) && output == Keyed(key, Joined(files, key), 0)
    ensures Scanned(output, key).records == JoinedRecords(files, key, 0) ==> Whole(Scanned(files[|files| - 1], key))
  {
    hide Keyed, ScanFrom, Whole, JoinedRecords;
    if !Whole(Scanned(files[|files| - 1], key)) {
      var j := CutSticksOut(files, key, 0);
      KeyedTwice(key, Joined(files, key), 0);
      RecordsRead(Joined(files, key), 0);
    }
  }

  // ---------------------------------------------------------------- a cut-off record, kept and lost

  lemma OneRecord(size: u32, body: seq<u8>)
    requires 80 <= |body| && size as nat <= |body| < size as nat + 88
    ensures var scan := ScanFrom(MAINNET_MAGIC + LittleEndian(size, 4) + body, 0);
            |scan.records| == 1 && scan.records[0].offset == 0 && scan.stoppedAt == 8 + size
  {
    hide HashOf, Deserialized, WordAt, LittleEndian;
    var plain := MAINNET_MAGIC + LittleEndian(size, 4) + body;
    assert plain[0..4] == MAINNET_MAGIC && plain[4..8] == LittleEndian(size, 4);
    assert MAINNET_MAGIC[0] != ZeroBytes(4)[0];
    WordAtInverse(size);
    ScanStep(plain, 0);
    assert StopAt(plain, 8 + size) == Some(EndOfFile);
  }

  function ShortRecord(): File { MAINNET_MAGIC + LittleEndian(76, 4) + (ZeroBytes(76) + MAINNET_MAGIC) }

  function WholeRecord(): File { MAINNET_MAGIC + LittleEndian(80, 4) + ZeroBytes(80) }

  /** Both files' scans, stored under an inactive key. */
  lemma SampleScans(key: Key)
    requires !IsActive(key)
    ensures Keyed(key, ShortRecord(), 0) == ShortRecord() && Keyed(key, WholeRecord(), 0) == WholeRecord()
    ensures var scan := Scanned(ShortRecord(), key); |scan.records| == 1 && scan.records[0].offset == 0 && scan.stoppedAt == 84
    ensures var scan := Scanned(WholeRecord(), key); |scan.records| == 1 && scan.records[0].offset == 0 && scan.stoppedAt == 88
    ensures CutOff(ShortRecord(), 84, 0) == MAINNET_MAGIC
    ensures Copyable([ShortRecord(), WholeRecord()], key) && Copyable([ShortRecord()], key)
  {
    hide ScanFrom, LittleEndian, Keyed;
    OneRecord(76, ZeroBytes(76) + MAINNET_MAGIC);
    OneRecord(80, ZeroBytes(80));
    KeyedByZero(key, ShortRecord(), 0);
    KeyedByZero(key, WholeRecord(), 0);
    assert ShortRecord()[84..88] == MAINNET_MAGIC;
  }

  lemma SamplesContinue(key: Key)
    requires !IsActive(key)
    ensures AllContinue([ShortRecord(), WholeRecord()], key)
  {
    hide ScanFrom, LittleEndian, Keyed;
    SampleScans(key);
    var pair := [ShortRecord(), WholeRecord()];
    assert pair[1..] == [WholeRecord()] && pair[2..] == [] && [WholeRecord()][1..] == [];
    assert Joined(pair[1..], key) == WholeRecord() + [] == WholeRecord() by {
      assert WholeRecord()[..88] == WholeRecord();
    }
    assert MAINNET_MAGIC <= WholeRecord();
  }

  /**
   * A file whose one record declares 76 bytes and is cut off by four: it survives in front of a file that begins
   * with those four bytes, and is lost when nothing follows.
   */
  lemma CutRecordKeptAndLost(key: Key, kept: File, lost: File)
    requires !IsActive(key)
    requires kept == Keyed(key, Joined([ShortRecord(), WholeRecord()], key), 0) && lost == Keyed(key, Joined([ShortRecord()], key), 0)
    ensures var short, pair := ShortRecord(), [ShortRecord(), WholeRecord()];
            && !Whole(Scanned(short, key)) && Copyable(pair, key) && Copyable([short], key)
            && Scanned(kept, key).records == JoinedRecords(pair, key, 0)
            && Scanned(lost, key).records != JoinedRecords([short], key, 0)
  {
    hide Scanned, Keyed, LittleEndian, JoinedRecords, AllContinue, Joined, ShortRecord, WholeRecord;
    SampleScans(key);
    SamplesContinue(key);
    ScanOfConcatenation([ShortRecord(), WholeRecord()], key, kept);
    LastMustBeWhole([ShortRecord()], key, lost);
  }
}
