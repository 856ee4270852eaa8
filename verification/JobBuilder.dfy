/** Turning a block template into a job, with the coinbase split around the extranonce. */
module JobBuilder {
  import opened Bytes
  import opened Coinbase
  import opened Target
  import opened Transactions
  import ByteOrder
  import Hex
  import Merkle
  import Script
  import Sha256
  import Stratum

  const EXTRANONCE1_SIZE := 4
  const EXTRANONCE2_SIZE := 4
  const EXTRANONCE_SIZE := EXTRANONCE1_SIZE + EXTRANONCE2_SIZE

  /** "solo-mac-miner" */
  const TAG: seq<u8> := [0x73, 0x6f, 0x6c, 0x6f, 0x2d, 0x6d, 0x61, 0x63, 0x2d, 0x6d, 0x69, 0x6e, 0x65, 0x72]

  const SENTINEL: seq<u8> := [0xDE, 0xAD, 0xBE, 0xEF, 0xCA, 0xFE, 0xF0, 0x0D]

  const COMMITMENT_HEADER: seq<u8> := [0xAA, 0x21, 0xA9, 0xED]

  const MIN_DIFFICULTY_BITS: u32 := 0x1d00_ffff
  const MIN_DIFFICULTY_GAP := 20 * 60
  const MAX_FUTURE_BLOCK_TIME := 2 * 60 * 60

  datatype TemplateTransaction = TemplateTransaction(data: string, txid: string, hash: string)

  datatype BlockTemplate = BlockTemplate(
    version: i32, previousBlockHash: string, transactions: seq<TemplateTransaction>, coinbaseValue: u64,
    bits: string, height: u32, currentTime: u64, defaultWitnessCommitment: Option<string>)

  datatype ActiveJob = ActiveJob(
    job: Stratum.Job, height: u32, coinbaseValue: u64, payoutScript: Vec<u8>, witnessCommitment: Vec<u8>,
    transactions: seq<seq<u8>>, txids: seq<Hash>, networkTarget: Target, submitNotBefore: Option<int>)

  datatype BuildError =
    | BadTemplate
    | CoinbaseFailed(error: CoinbaseError)
    | WitnessCommitmentMismatch
    | TimeOverflow
    | SentinelNotUnique(count: nat)

  // ---------------------------------------------------------------- reading the template

  /** Parses the display form of a hash: 64 hex characters, reversed. */
  function HashFromText(s: string): Result<Hash, BuildError> {
    match ByteOrder.FromDisplay(s)
    case Ok(hash) => Ok(hash)
    case Err(_) => Err(BadTemplate)
  }

  function BytesFromText(s: string): Result<seq<u8>, BuildError> {
    match Hex.Decoded(s)
    case Ok(bytes) => Ok(bytes)
    case Err(_) => Err(BadTemplate)
  }

  function WitnessIdOf(tx: TemplateTransaction): Result<Hash, BuildError> { HashFromText(tx.hash) }

  function TxidOf(tx: TemplateTransaction): Result<Hash, BuildError> { HashFromText(tx.txid) }

  function RawOf(tx: TemplateTransaction): Result<seq<u8>, BuildError> { BytesFromText(tx.data) }

  /** Applies a fallible reading to every element; the first failure is the result. */
  function Collect<S, T>(read: S -> Result<T, BuildError>, items: seq<S>): (r: Result<seq<T>, BuildError>)
    ensures r.Ok? ==> |r.value| == |items|
    decreases |items|
  {
    if items == [] then Ok([]) else
    var first :- read(items[0]);
    var rest :- Collect(read, items[1..]);
    Ok([first] + rest)
  }

  function CompactBits(template: BlockTemplate): Result<u32, BuildError> {
    match Hex.DecodedArray(template.bits, 4)
    case Ok(bytes) =>
      BigEndianBound(bytes); Pow256Values();
      Ok(FromBigEndian(bytes))
    case Err(_) => Err(BadTemplate)
  }

  function NetworkTarget(bits: u32): Result<Target, BuildError> {
    match Decoded(bits)
    case Ok(target) => Ok(target)
    case Err(_) => Err(BadTemplate)
  }

  /** OP_RETURN, a 36-byte push, the marker and the commitment to the witness tree. */
  function CommitmentScript(wtxids: seq<Hash>): Vec<u8> {
    var root := Merkle.RootOf(Merkle.Combine, [ZERO_HASH] + wtxids);
    [0x6A, 0x24] + COMMITMENT_HEADER + Sha256.Sha256d(root + ZERO_HASH)
  }

  // ---------------------------------------------------------------- the coinbase and its split

  function Builder(active: ActiveJob, extranonce: Element): CoinbaseBuilder {
    CoinbaseBuilder(active.height, active.coinbaseValue, active.payoutScript, extranonce, TAG,
                    Some(active.witnessCommitment))
  }

  /** The coinbase for an extranonce, rebuilt from the job's own data. */
  function CoinbaseFor(active: ActiveJob, extranonce: Element): Result<Transaction, CoinbaseError> {
    Built(Builder(active, extranonce))
  }

  predicate SentinelAt(s: seq<u8>, p: nat) {
    p + EXTRANONCE_SIZE <= |s| && s[p..p + EXTRANONCE_SIZE] == SENTINEL
  }

  /** The offsets from `at` on where the sentinel stands. */
  function SentinelOffsets(s: seq<u8>, at: nat): seq<nat>
    decreases |s| - at
  {
    if at + EXTRANONCE_SIZE > |s| then []
    else if SentinelAt(s, at) then [at] + SentinelOffsets(s, at + 1)
    else SentinelOffsets(s, at + 1)
  }

  function Split(active: ActiveJob): Result<(seq<u8>, seq<u8>), BuildError> {
    match CoinbaseFor(active, SENTINEL)
    case Err(error) => Err(CoinbaseFailed(error))
    case Ok(coinbase) =>
      var serialised := Wire(coinbase, Legacy);
      var offsets := SentinelOffsets(serialised, 0);
      OffsetsAreWindows(serialised, 0);
      if |offsets| != 1 then Err(SentinelNotUnique(|offsets|))
      else assert offsets[0] in offsets; Ok((serialised[..offsets[0]], serialised[offsets[0] + EXTRANONCE_SIZE..]))
  }

  lemma {:induction false} OffsetsAreWindows(s: seq<u8>, at: nat)
    ensures forall p: nat :: p in SentinelOffsets(s, at) <==> at <= p && SentinelAt(s, p)
    ensures forall p :: p in SentinelOffsets(s, at) ==> p + EXTRANONCE_SIZE <= |s|
    decreases |s| - at
  {
    if at + EXTRANONCE_SIZE <= |s| {
      OffsetsAreWindows(s, at + 1);
    }
  }

  // ---------------------------------------------------------------- building the job

  function Unsplit(
    jobId: string, template: BlockTemplate, payoutScript: Vec<u8>, cleanJobs: bool, commitment: Vec<u8>,
    txids: seq<Hash>, transactions: seq<seq<u8>>): Result<ActiveJob, BuildError>
  {
    var prevHash :- HashFromText(template.previousBlockHash);
    var bits :- CompactBits(template);
    if template.currentTime > U32_MAX then Err(TimeOverflow) else
    var target :- NetworkTarget(bits);
    Ok(ActiveJob(
      Stratum.Job(jobId, prevHash, [], [], Merkle.BranchOf(Merkle.Combine, [ZERO_HASH] + txids),
                  template.version, bits, template.currentTime, cleanJobs),
      template.height, template.coinbaseValue, payoutScript, commitment, transactions, txids, target, None))
  }

  /** Builds a job from a template. */
  function Build(jobId: string, template: BlockTemplate, payoutScript: Vec<u8>, cleanJobs: bool)
    : Result<ActiveJob, BuildError>
  {
    var wtxids :- Collect(WitnessIdOf, template.transactions);
    var commitment := CommitmentScript(wtxids);
    if template.defaultWitnessCommitment.Some? && Hex.Encoded(commitment) != template.defaultWitnessCommitment.value
    then Err(WitnessCommitmentMismatch) else
    var txids :- Collect(TxidOf, template.transactions);
    var transactions :- Collect(RawOf, template.transactions);
    var active :- Unsplit(jobId, template, payoutScript, cleanJobs, commitment, txids, transactions);
    var halves :- Split(active);
    Ok(active.(job := active.job.(coinbasePrefix := halves.0, coinbaseSuffix := halves.1)))
  }

  /** The poller's minimum-difficulty override: a chosen timestamp, the easiest target, a submission hold. */
  function Override(active: ActiveJob, parentTime: u32, target: Target): ActiveJob {
    var ntime := parentTime + MIN_DIFFICULTY_GAP + 1;
    active.(job := active.job.(time := ntime % 0x1_0000_0000, bits := MIN_DIFFICULTY_BITS),
            networkTarget := target,
            submitNotBefore := Some(ntime - MAX_FUTURE_BLOCK_TIME))
  }

  // ---------------------------------------------------------------- where the extranonce sits

  /** Everything in the legacy coinbase before an extranonce of `n` bytes. */
  function Front(active: ActiveJob, n: nat): seq<u8>
    requires 0 < n <= Script.MAX_PUSH && ScriptLength(active, n) <= MAX_SCRIPT_SIG
  {
    LittleEndian(2, 4) + [1] + ZERO_HASH + LittleEndian(U32_MAX, 4)
    + [ScriptLength(active, n)] + Script.BlockHeight(active.height) + Script.PushPrefix(n)
  }

  /** Everything after the extranonce. */
  function Back(active: ActiveJob): seq<u8> {
    Script.Push(TAG) + LittleEndian(U32_MAX, 4)
    + Counted(OutputBytes, Outputs(Builder(active, []))) + LittleEndian(0, 4)
  }

  function ScriptLength(active: ActiveJob, n: nat): nat
    requires n <= Script.MAX_PUSH
  {
    |Script.BlockHeight(active.height)| + (if n == 0 then 0 else |Script.PushPrefix(n)| + n) + 15
  }

  lemma ScriptSigParts(active: ActiveJob, extranonce: Element)
    ensures var b := Builder(active, extranonce);
            |ScriptSig(b)| == ScriptLength(active, |extranonce|)
            && (extranonce != [] ==>
                  ScriptSig(b) == Script.BlockHeight(active.height) + Script.PushPrefix(|extranonce|) + extranonce + Script.Push(TAG))
    ensures CoinbaseFor(active, extranonce).Ok? <==> ScriptLength(active, |extranonce|) <= MAX_SCRIPT_SIG
  {
    hide Script.BlockHeight, Outputs;
    HeightLength(active.height);
    assert |Script.Push(TAG)| == 15;
    if extranonce != [] {
      var h, p, t := Script.BlockHeight(active.height), Script.PushPrefix(|extranonce|), Script.Push(TAG);
      Assoc(p, extranonce, t);
      Assoc(h, p, extranonce + t);
      Assoc(h + p, extranonce, t);
    }
  }

  /** The single input of the coinbase, as it is serialised. */
  lemma InputSection(input: TxIn, scriptSig: seq<u8>)
    requires input.previousOutput == NULL_OUTPOINT && input.scriptSig == scriptSig && input.sequence == U32_MAX
    requires |scriptSig| <= 0xFC
    ensures Counted(InputBytes, [input])
            == [1] + ZERO_HASH + LittleEndian(U32_MAX, 4) + [|scriptSig|] + scriptSig + LittleEndian(U32_MAX, 4)
  {
    hide LittleEndian;
    assert PrintList(InputBytes, [input]) == InputBytes(input) + [] == InputBytes(input) by {
      hide InputBytes;
      assert [input][1..] == [];
    }
  }

  /** For every extranonce, whole coinbase bytes around the input section. */
  lemma LegacyParts(active: ActiveJob, extranonce: Element)
    requires CoinbaseFor(active, extranonce).Ok?
    ensures var script := ScriptSig(Builder(active, extranonce));
            Wire(CoinbaseFor(active, extranonce).value, Legacy)
            == LittleEndian(2, 4)
               + ([1] + ZERO_HASH + LittleEndian(U32_MAX, 4) + [|script|] + script + LittleEndian(U32_MAX, 4))
               + Counted(OutputBytes, Outputs(Builder(active, []))) + LittleEndian(0, 4)
  {
    hide LittleEndian, Counted, ScriptSig, Wire, Outputs;
    var tx := CoinbaseFor(active, extranonce).value;
    var script := ScriptSig(Builder(active, extranonce));
    OutputsIgnoreExtranonce(active, extranonce);
    WireChain(tx, Legacy);
    InputSection(tx.inputs[0], script);
    assert tx.inputs == [tx.inputs[0]];
    var v, i := LittleEndian(2, 4), Counted(InputBytes, tx.inputs);
    var o := Counted(OutputBytes, tx.outputs);
    assert v + Marker(Legacy) == v;
    assert v + i + o + Witnesses(tx, Legacy) == v + i + o;
  }

  lemma OutputsIgnoreExtranonce(active: ActiveJob, extranonce: Element)
    ensures Outputs(Builder(active, extranonce)) == Outputs(Builder(active, []))
  {
  }

  /** The serialised coinbase is the front for this width, the extranonce, and a back that never changes. */
  lemma Layout(active: ActiveJob, extranonce: Element)
    requires extranonce != [] && ScriptLength(active, |extranonce|) <= MAX_SCRIPT_SIG
    ensures CoinbaseFor(active, extranonce).Ok?
    ensures Wire(CoinbaseFor(active, extranonce).value, Legacy)
            == Front(active, |extranonce|) + extranonce + Back(active)
  {
    hide LittleEndian, Counted, ScriptSig, Wire, Outputs, Script.BlockHeight, Script.PushPrefix, Script.Push, CoinbaseFor;
    ScriptSigParts(active, extranonce);
    LegacyParts(active, extranonce);
    var n := |extranonce|;
    var h, p, t := Script.BlockHeight(active.height), Script.PushPrefix(n), Script.Push(TAG);
    var head := [1] + ZERO_HASH + LittleEndian(U32_MAX, 4) + [ScriptLength(active, n)];
    var o, l := Counted(OutputBytes, Outputs(Builder(active, []))), LittleEndian(0, 4);
    Regroup(LittleEndian(2, 4), head, h, p, extranonce, t, LittleEndian(U32_MAX, 4), o, l);
    FrontParts(active, n);
  }

  lemma FrontParts(active: ActiveJob, n: nat)
    requires 0 < n <= Script.MAX_PUSH && ScriptLength(active, n) <= MAX_SCRIPT_SIG
    ensures Front(active, n) == LittleEndian(2, 4)
            + ([1] + ZERO_HASH + LittleEndian(U32_MAX, 4) + [ScriptLength(active, n)])
            + Script.BlockHeight(active.height) + Script.PushPrefix(n)
  {
    hide LittleEndian, Script.BlockHeight, Script.PushPrefix;
  }

  lemma Regroup(v: seq<u8>, head: seq<u8>, h: seq<u8>, p: seq<u8>, e: seq<u8>, t: seq<u8>, q: seq<u8>, o: seq<u8>, l: seq<u8>)
    ensures v + (head + (h + p + e + t) + q) + o + l == (v + head + h + p) + e + (t + q + o + l)
  {
    var right := t + q + o + l;
    calc {
      v + (head + (h + p + e + t) + q) + o + l;
      == { assert head + (h + p + e + t) + q == (head + h + p + e) + (t + q); }
      v + ((head + h + p + e) + (t + q)) + o + l;
      == { Assoc(v, head + h + p + e, t + q); }
      (v + (head + h + p + e)) + (t + q) + o + l;
      == { assert v + (head + h + p + e) == v + head + h + p + e; }
      (v + head + h + p + e) + (t + q) + o + l;
      == { assert ((v + head + h + p + e) + (t + q)) + o + l == (v + head + h + p + e) + right; }
      (v + head + h + p + e) + right;
    }
  }

  /** A successful split cut the sentinel coinbase at the structural offset of the extranonce. */
  lemma SplitAtStructure(active: ActiveJob)
    requires Split(active).Ok?
    ensures ScriptLength(active, EXTRANONCE_SIZE) <= MAX_SCRIPT_SIG
    ensures Split(active).value == (Front(active, EXTRANONCE_SIZE), Back(active))
  {
    hide ScriptLength, Front, Back, Wire, CoinbaseFor, SentinelOffsets;
    ScriptSigParts(active, SENTINEL);
    Layout(active, SENTINEL);
    var front, back := Front(active, EXTRANONCE_SIZE), Back(active);
    var s := Wire(CoinbaseFor(active, SENTINEL).value, Legacy);
    assert s == front + SENTINEL + back;
    var p := |front|;
    assert s[p..p + EXTRANONCE_SIZE] == SENTINEL;
    assert SentinelAt(s, p);
    OffsetsAreWindows(s, 0);
    var offsets := SentinelOffsets(s, 0);
    assert p in offsets;
    assert offsets[0] == p;
    assert s[..p] == front && s[p + EXTRANONCE_SIZE..] == back;
  }

  /** Soundness: splicing any 8 bytes into the halves gives the coinbase the pool rebuilds for them. */
  lemma SplitSound(active: ActiveJob, prefix: seq<u8>, suffix: seq<u8>, extranonce: Element)
    requires Split(active) == Ok((prefix, suffix)) && |extranonce| == EXTRANONCE_SIZE
    ensures CoinbaseFor(active, extranonce).Ok?
    ensures prefix + extranonce + suffix == Wire(CoinbaseFor(active, extranonce).value, Legacy)
  {
    hide ScriptLength, Front, Back, Wire, CoinbaseFor, Split;
    SplitAtStructure(active);
    Layout(active, extranonce);
  }

  /** The byte in front of the script is its length, and it betrays the width of the extranonce. */
  lemma LengthByte(active: ActiveJob, extranonce: Element)
    requires CoinbaseFor(active, extranonce).Ok?
    ensures var s := Wire(CoinbaseFor(active, extranonce).value, Legacy);
            |s| > 41 && s[41] == ScriptLength(active, |extranonce|)
  {
    hide LittleEndian, Counted, ScriptSig, Wire, Outputs, ScriptLength, CoinbaseFor;
    ScriptSigParts(active, extranonce);
    LegacyParts(active, extranonce);
  }

  lemma WidthFromLength(active: ActiveJob, n: nat)
    requires n <= Script.MAX_PUSH && ScriptLength(active, n) == ScriptLength(active, EXTRANONCE_SIZE)
    ensures n == EXTRANONCE_SIZE
  {
    hide Script.BlockHeight;
  }

  /** Any other width is caught: the coinbase cannot be rebuilt, or it differs from the spliced bytes. */
  lemma WrongWidthFails(active: ActiveJob, prefix: seq<u8>, suffix: seq<u8>, extranonce: Element)
    requires Split(active) == Ok((prefix, suffix)) && |extranonce| != EXTRANONCE_SIZE
    ensures CoinbaseFor(active, extranonce).Err?
            || prefix + extranonce + suffix != Wire(CoinbaseFor(active, extranonce).value, Legacy)
  {
    if CoinbaseFor(active, extranonce).Ok? {
      FrontLengthByte(active);
      hide ScriptLength, Front, Back, Wire, CoinbaseFor, Split;
      SplitAtStructure(active);
      LengthByte(active, extranonce);
      if prefix + extranonce + suffix == Wire(CoinbaseFor(active, extranonce).value, Legacy) {
        WidthFromLength(active, |extranonce|);
      }
    }
  }

  lemma FrontLengthByte(active: ActiveJob)
    requires ScriptLength(active, EXTRANONCE_SIZE) <= MAX_SCRIPT_SIG
    ensures |Front(active, EXTRANONCE_SIZE)| > 41
    ensures Front(active, EXTRANONCE_SIZE)[41] == ScriptLength(active, EXTRANONCE_SIZE)
  {
    hide LittleEndian, Script.BlockHeight, ScriptLength;
  }

  /** The split is refused exactly when the sentinel also stands somewhere other than its own place. */
  lemma SplitSucceedsIff(active: ActiveJob)
    ensures ScriptLength(active, EXTRANONCE_SIZE) <= MAX_SCRIPT_SIG
    ensures var s := Front(active, EXTRANONCE_SIZE) + SENTINEL + Back(active);
            Split(active).Ok? <==>
            forall p: nat :: SentinelAt(s, p) ==> p == |Front(active, EXTRANONCE_SIZE)|
  {
    SentinelScriptFits(active);
    hide ScriptLength, Front, Back, Wire, CoinbaseFor, SentinelOffsets;
    Layout(active, SENTINEL);
    var front := Front(active, EXTRANONCE_SIZE);
    var s := Wire(CoinbaseFor(active, SENTINEL).value, Legacy);
    assert s == front + SENTINEL + Back(active);
    var p := |front|;
    assert s[p..p + EXTRANONCE_SIZE] == SENTINEL;
    assert SentinelAt(s, p);
    OffsetsAreWindows(s, 0);
    OffsetsIncrease(s, 0);
    var offsets := SentinelOffsets(s, 0);
    assert p in offsets;
    if |offsets| != 1 {
      var q := if offsets[0] == p then offsets[1] else offsets[0];
      assert offsets[0] < offsets[1];
      assert q in offsets && q != p;
    } else {
      assert offsets[0] == p;
      forall q: nat | SentinelAt(s, q) ensures q == p {
        assert q in offsets;
      }
    }
  }

  lemma SentinelScriptFits(active: ActiveJob)
    ensures ScriptLength(active, EXTRANONCE_SIZE) <= MAX_SCRIPT_SIG
  {
    hide Script.BlockHeight;
    HeightLength(active.height);
  }

  /** With 8 extranonce bytes the coinbase can always be rebuilt. */
  lemma EightBytesRebuild(active: ActiveJob, extranonce: Element)
    requires |extranonce| == EXTRANONCE_SIZE
    ensures CoinbaseFor(active, extranonce).Ok?
  {
    hide ScriptLength, CoinbaseFor;
    SentinelScriptFits(active);
    ScriptSigParts(active, extranonce);
  }

  lemma {:induction false} OffsetsIncrease(s: seq<u8>, at: nat)
    ensures Increasing(SentinelOffsets(s, at))
    decreases |s| - at
  {
    if at + EXTRANONCE_SIZE <= |s| {
      OffsetsIncrease(s, at + 1);
      OffsetsAreWindows(s, at + 1);
      var rest := SentinelOffsets(s, at + 1);
      forall j | 0 <= j < |rest| ensures at < rest[j] {
        assert rest[j] in rest;
      }
      if SentinelAt(s, at) {
        var offsets := [at] + rest;
        forall i, j | 0 <= i < j < |offsets| ensures offsets[i] < offsets[j] {
          assert offsets[j] == rest[j - 1];
          if i > 0 {
            assert offsets[i] == rest[i - 1];
          }
        }
      }
    }
  }

  predicate Increasing(s: seq<nat>) {
    forall i, j :: 0 <= i < j < |s| ==> s[i] < s[j]
  }

  /** The branch from the coinbase leaf: any placeholder serves as leaf 0. */
  method CoinbaseBranch(txids: seq<Hash>) returns (branch: seq<Hash>)
    ensures forall coinbase: Hash :: branch == Merkle.BranchOf(Merkle.Combine, [coinbase] + txids)
  {
    hide Merkle.Combine, Merkle.BranchOf;
    var leaves := [ZERO_HASH];
    leaves := leaves + txids;
    branch := Merkle.CoinbaseBranch(Merkle.Combine, leaves);
    forall coinbase: Hash ensures branch == Merkle.BranchOf(Merkle.Combine, [coinbase] + txids) {
      assert ([coinbase] + txids)[1..] == leaves[1..];
      Merkle.BranchIgnoresFirst(Merkle.Combine, leaves, [coinbase] + txids);
    }
  }

  // ---------------------------------------------------------------- when a job can be built

  predicate ReadableTransaction(tx: TemplateTransaction) {
    WitnessIdOf(tx).Ok? && TxidOf(tx).Ok? && RawOf(tx).Ok?
  }

  /** Every field parses, the time fits 32 bits, and the bits stand for a target. */
  predicate Readable(template: BlockTemplate) {
    && (forall i :: 0 <= i < |template.transactions| ==> ReadableTransaction(template.transactions[i]))
    && HashFromText(template.previousBlockHash).Ok? && template.currentTime <= U32_MAX
    && CompactBits(template).Ok? && Decoded(CompactBits(template).value).Ok?
  }

  function WitnessIds(template: BlockTemplate): seq<Hash>
    requires Readable(template)
  {
    seq(|template.transactions|, i requires 0 <= i < |template.transactions| =>
      assert ReadableTransaction(template.transactions[i]); WitnessIdOf(template.transactions[i]).value)
  }

  function Txids(template: BlockTemplate): seq<Hash>
    requires Readable(template)
  {
    seq(|template.transactions|, i requires 0 <= i < |template.transactions| =>
      assert ReadableTransaction(template.transactions[i]); TxidOf(template.transactions[i]).value)
  }

  function RawTransactions(template: BlockTemplate): seq<seq<u8>>
    requires Readable(template)
  {
    seq(|template.transactions|, i requires 0 <= i < |template.transactions| =>
      assert ReadableTransaction(template.transactions[i]); RawOf(template.transactions[i]).value)
  }

  /** The node's own commitment, if it sent one, is the one computed from the witness ids. */
  predicate CommitmentAgrees(template: BlockTemplate)
    requires Readable(template)
  {
    template.defaultWitnessCommitment.None?
    || template.defaultWitnessCommitment.value == Hex.Encoded(CommitmentScript(WitnessIds(template)))
  }

  /** The job a readable template stands for, before the coinbase is split. */
  function Draft(jobId: string, template: BlockTemplate, payoutScript: Vec<u8>, cleanJobs: bool): ActiveJob
    requires Readable(template)
  {
    ActiveJob(
      Stratum.Job(jobId, HashFromText(template.previousBlockHash).value, [], [],
                  Merkle.BranchOf(Merkle.Combine, [ZERO_HASH] + Txids(template)), template.version,
                  CompactBits(template).value, template.currentTime, cleanJobs),
      template.height, template.coinbaseValue, payoutScript, CommitmentScript(WitnessIds(template)),
      RawTransactions(template), Txids(template), Decoded(CompactBits(template).value).value, None)
  }

  /** In the coinbase built with the sentinel, the sentinel stands at its own place only. */
  ghost predicate SentinelIsUnique(active: ActiveJob) {
    SentinelScriptFits(active);
    forall p: nat :: SentinelAt(Front(active, EXTRANONCE_SIZE) + SENTINEL + Back(active), p) ==> p == |Front(active, EXTRANONCE_SIZE)|
  }

  lemma {:induction false} CollectReads<S, T>(read: S -> Result<T, BuildError>, items: seq<S>)
    ensures Collect(read, items).Ok? ==> forall i :: 0 <= i < |items| ==> read(items[i]).Ok?
  {
    if items != [] {
      CollectReads(read, items[1..]);
      assert forall i :: 0 < i < |items| ==> items[i] == items[1..][i - 1];
    }
  }

  lemma {:induction false} CollectIs<S, T>(read: S -> Result<T, BuildError>, items: seq<S>, values: seq<T>)
    requires |values| == |items| && forall i :: 0 <= i < |items| ==> read(items[i]) == Ok(values[i])
    ensures Collect(read, items) == Ok(values)
  {
    if items != [] {
      CollectIs(read, items[1..], values[1..]);
      assert [values[0]] + values[1..] == values;
    }
  }

  lemma UnreadableFails(jobId: string, template: BlockTemplate, payoutScript: Vec<u8>, cleanJobs: bool)
    requires Build(jobId, template, payoutScript, cleanJobs).Ok?
    ensures Readable(template)
  {
    hide Split, CommitmentScript, HashFromText, WitnessIdOf, TxidOf, RawOf, CompactBits, Decoded, Collect, Merkle.BranchOf;
    CollectReads(WitnessIdOf, template.transactions);
    CollectReads(TxidOf, template.transactions);
    CollectReads(RawOf, template.transactions);
  }

  lemma ReadableCollects(template: BlockTemplate)
    requires Readable(template)
    ensures Collect(WitnessIdOf, template.transactions) == Ok(WitnessIds(template))
    ensures Collect(TxidOf, template.transactions) == Ok(Txids(template))
    ensures Collect(RawOf, template.transactions) == Ok(RawTransactions(template))
  {
    hide WitnessIdOf, TxidOf, RawOf, CompactBits, Decoded, Collect, HashFromText;
    var txs := template.transactions;
    forall i | 0 <= i < |txs|
      ensures WitnessIdOf(txs[i]) == Ok(WitnessIds(template)[i]) && TxidOf(txs[i]) == Ok(Txids(template)[i])
      ensures RawOf(txs[i]) == Ok(RawTransactions(template)[i])
    {
      assert ReadableTransaction(txs[i]);
    }
    CollectIs(WitnessIdOf, txs, WitnessIds(template));
    CollectIs(TxidOf, txs, Txids(template));
    CollectIs(RawOf, txs, RawTransactions(template));
  }

  lemma ReadableBuilds(jobId: string, template: BlockTemplate, payoutScript: Vec<u8>, cleanJobs: bool)
    requires Readable(template)
    ensures Build(jobId, template, payoutScript, cleanJobs)
            == if !CommitmentAgrees(template) then Err(WitnessCommitmentMismatch) else
               match Split(Draft(jobId, template, payoutScript, cleanJobs))
               case Err(error) => Err(error)
               case Ok(halves) =>
                 var draft := Draft(jobId, template, payoutScript, cleanJobs);
                 Ok(draft.(job := draft.job.(coinbasePrefix := halves.0, coinbaseSuffix := halves.1)))
  {
    hide Split, CommitmentScript, HashFromText, CompactBits, Decoded, Collect, Merkle.BranchOf,
         WitnessIds, Txids, RawTransactions, ReadableTransaction;
    ReadableCollects(template);
  }

  /**
   * A template becomes a job exactly when it is readable, its commitment agrees, and the sentinel is unique in
   * the coinbase; the job is then the draft with the fields around the extranonce as its two halves.
   */
  lemma BuildSucceedsIff(jobId: string, template: BlockTemplate, payoutScript: Vec<u8>, cleanJobs: bool)
    ensures Build(jobId, template, payoutScript, cleanJobs).Ok? <==>
            Readable(template) && CommitmentAgrees(template) && SentinelIsUnique(Draft(jobId, template, payoutScript, cleanJobs))
  {
    hide Build, Split, Readable, CommitmentAgrees, Draft, Front, Back;
    if Build(jobId, template, payoutScript, cleanJobs).Ok? {
      UnreadableFails(jobId, template, payoutScript, cleanJobs);
    }
    if Readable(template) {
      ReadableBuilds(jobId, template, payoutScript, cleanJobs);
      SplitSucceedsIff(Draft(jobId, template, payoutScript, cleanJobs));
    }
  }

  /** The halves of a built job. */
  lemma BuiltHalves(jobId: string, template: BlockTemplate, payoutScript: Vec<u8>, cleanJobs: bool)
    requires Build(jobId, template, payoutScript, cleanJobs).Ok?
    ensures Readable(template)
    ensures var draft := Draft(jobId, template, payoutScript, cleanJobs);
            && ScriptLength(draft, EXTRANONCE_SIZE) <= MAX_SCRIPT_SIG
            && Build(jobId, template, payoutScript, cleanJobs).value
               == draft.(job := draft.job.(coinbasePrefix := Front(draft, EXTRANONCE_SIZE), coinbaseSuffix := Back(draft)))
  {
    hide Build, Split, Readable, CommitmentAgrees, Draft, Front, Back;
    UnreadableFails(jobId, template, payoutScript, cleanJobs);
    ReadableBuilds(jobId, template, payoutScript, cleanJobs);
    SplitAtStructure(Draft(jobId, template, payoutScript, cleanJobs));
  }

  // ---------------------------------------------------------------- a job that can be split

  /** The sentinel's first byte occurs nowhere else in it, so a coinbase free of that byte keeps it unique. */
  lemma ClearIsUnique(active: ActiveJob)
    requires ScriptLength(active, EXTRANONCE_SIZE) <= MAX_SCRIPT_SIG
    requires SENTINEL[0] !in Front(active, EXTRANONCE_SIZE) && SENTINEL[0] !in Back(active)
    ensures SentinelIsUnique(active)
  {
    hide Front, Back, ScriptLength;
    var front, back := Front(active, EXTRANONCE_SIZE), Back(active);
    var s := front + SENTINEL + back;
    forall q | 0 <= q < |s| && q != |front| ensures s[q] != SENTINEL[0] {
      if q < |front| {
        assert s[q] == front[q];
      } else if q >= |front| + EXTRANONCE_SIZE {
        assert s[q] == back[q - |front| - EXTRANONCE_SIZE];
      } else {
        assert s[q] == SENTINEL[q - |front|];
      }
    }
    forall p: nat | SentinelAt(s, p) ensures p == |front| {
      assert s[p..p + EXTRANONCE_SIZE][0] == s[p];
    }
  }

  lemma SmallLittleEndians()
    ensures LittleEndian(2, 4) == [2, 0, 0, 0] && LittleEndian(0, 4) == [0, 0, 0, 0]
    ensures LittleEndian(U32_MAX, 4) == [0xFF, 0xFF, 0xFF, 0xFF] && LittleEndian(0, 8) == [0, 0, 0, 0, 0, 0, 0, 0]
  {
  }

  /** A job with an empty payout and commitment, at height 0: its coinbase is free of the sentinel's first byte. */
  lemma PlainJobSplits(active: ActiveJob)
    requires active.height == 0 && active.coinbaseValue == 0 && active.payoutScript == [] && active.witnessCommitment == []
    ensures Split(active).Ok?
  {
    hide Split, Front, Back, ScriptLength;
    SplitSucceedsIff(active);
    PlainFront(active);
    PlainBack(active);
    ClearIsUnique(active);
  }

  lemma PlainFront(active: ActiveJob)
    requires active.height == 0 && ScriptLength(active, EXTRANONCE_SIZE) <= MAX_SCRIPT_SIG
    ensures SENTINEL[0] !in Front(active, EXTRANONCE_SIZE)
  {
    hide LittleEndian;
    SmallLittleEndians();
    assert SENTINEL[0] !in ZERO_HASH;
  }

  lemma PlainBack(active: ActiveJob)
    requires active.coinbaseValue == 0 && active.payoutScript == [] && active.witnessCommitment == []
    ensures SENTINEL[0] !in Back(active)
  {
    hide LittleEndian, Outputs, Counted;
    PlainOutputs(active);
    SmallLittleEndians();
    assert forall i :: 0 <= i < |TAG| ==> TAG[i] != SENTINEL[0];
    assert SENTINEL[0] !in Script.Push(TAG);
  }

  lemma PlainOutputs(active: ActiveJob)
    requires active.coinbaseValue == 0 && active.payoutScript == [] && active.witnessCommitment == []
    ensures SENTINEL[0] !in Counted(OutputBytes, Outputs(Builder(active, [])))
  {
    hide LittleEndian;
    SmallLittleEndians();
    var o := TxOut(0, []);
    assert Outputs(Builder(active, [])) == [o, o];
    assert OutputBytes(o) == [0, 0, 0, 0, 0, 0, 0, 0] + [0];
    assert PrintList(OutputBytes, [o]) == OutputBytes(o) + [];
    assert PrintList(OutputBytes, [o, o]) == OutputBytes(o) + PrintList(OutputBytes, [o]);
    assert Counted(OutputBytes, [o, o]) == [2] + PrintList(OutputBytes, [o, o]);
  }

  // ---------------------------------------------------------------- what a job takes from its template

  /** Each transaction of a job stands for the template's own: its id is the `txid` field, its bytes the `data` field. */
  predicate TransactionsRead(active: ActiveJob, template: BlockTemplate) {
    && |active.txids| == |active.transactions| == |template.transactions|
    && forall i :: 0 <= i < |template.transactions| ==>
         && ByteOrder.FromDisplay(template.transactions[i].txid) == Ok(active.txids[i])
         && Hex.Decoded(template.transactions[i].data) == Ok(active.transactions[i])
  }

  /** The witness ids `w` are the template's `hash` fields. */
  predicate WitnessIdsRead(w: seq<Hash>, template: BlockTemplate) {
    && |w| == |template.transactions|
    && forall i :: 0 <= i < |w| ==> ByteOrder.FromDisplay(template.transactions[i].hash) == Ok(w[i])
  }

  /** Every field of a job, read from the template it was built from. */
  predicate FieldsRead(active: ActiveJob, jobId: string, template: BlockTemplate, payoutScript: Vec<u8>, cleanJobs: bool) {
    && active.job.jobId == jobId && active.job.cleanJobs == cleanJobs
    && active.job.version == template.version && active.job.time == template.currentTime
    && ByteOrder.FromDisplay(template.previousBlockHash) == Ok(active.job.prevHash)
    && Hex.DecodedArray(template.bits, 4) == Ok(BigEndian(active.job.bits, 4))
    && Decoded(active.job.bits) == Ok(active.networkTarget)
    && active.height == template.height && active.coinbaseValue == template.coinbaseValue
    && active.payoutScript == payoutScript && active.submitNotBefore == None
  }

  lemma TransactionsAreRead(jobId: string, template: BlockTemplate, payoutScript: Vec<u8>, cleanJobs: bool)
    requires Readable(template)
    ensures TransactionsRead(Draft(jobId, template, payoutScript, cleanJobs), template)
    ensures WitnessIdsRead(WitnessIds(template), template)
  {
    hide ByteOrder.FromDisplay, Hex.Decoded, Merkle.BranchOf, CommitmentScript, CompactBits, Decoded;
    var active := Draft(jobId, template, payoutScript, cleanJobs);
    forall i | 0 <= i < |template.transactions|
      ensures ByteOrder.FromDisplay(template.transactions[i].txid) == Ok(active.txids[i])
      ensures Hex.Decoded(template.transactions[i].data) == Ok(active.transactions[i])
      ensures ByteOrder.FromDisplay(template.transactions[i].hash) == Ok(WitnessIds(template)[i])
    {
      assert ReadableTransaction(template.transactions[i]);
    }
  }

  lemma FieldsAreRead(jobId: string, template: BlockTemplate, payoutScript: Vec<u8>, cleanJobs: bool)
    requires Readable(template)
    ensures FieldsRead(Draft(jobId, template, payoutScript, cleanJobs), jobId, template, payoutScript, cleanJobs)
  {
    hide ByteOrder.FromDisplay, Hex.Decoded, Merkle.BranchOf, CommitmentScript, Decoded, BigEndian, FromBigEndian,
         WitnessIds, Txids, RawTransactions;
    BigEndianEncodes(Hex.DecodedArray(template.bits, 4).value);
  }

  /** A built job, field by field: nothing comes from another field of the template than its own. */
  lemma BuildReadsTheTemplate(jobId: string, template: BlockTemplate, payoutScript: Vec<u8>, cleanJobs: bool)
    requires Build(jobId, template, payoutScript, cleanJobs).Ok?
    ensures var active := Build(jobId, template, payoutScript, cleanJobs).value;
            && TransactionsRead(active, template) && FieldsRead(active, jobId, template, payoutScript, cleanJobs)
    ensures exists w :: WitnessIdsRead(w, template)
                        && Build(jobId, template, payoutScript, cleanJobs).value.witnessCommitment == CommitmentScript(w)
  {
    hide Build, Front, Back, ByteOrder.FromDisplay, Hex.Decoded, Hex.DecodedArray, Decoded, BigEndian, CommitmentScript,
         Merkle.BranchOf, Readable, ScriptLength, WitnessIds, Txids, RawTransactions, CompactBits, HashFromText;
    BuiltHalves(jobId, template, payoutScript, cleanJobs);
    TransactionsAreRead(jobId, template, payoutScript, cleanJobs);
    FieldsAreRead(jobId, template, payoutScript, cleanJobs);
    assert WitnessIdsRead(WitnessIds(template), template);
  }

  /** The commitment: OP_RETURN, a 36-byte push of the marker of BIP 141, and the double hash of the witness root and 32 zeros. */
  lemma CommitmentParts(w: seq<Hash>)
    ensures var script, leaves := CommitmentScript(w), [ZeroBytes(32)] + w;
            && |script| == 38 && script[..6] == [0x6A, 36, 0xAA, 0x21, 0xA9, 0xED]
            && Merkle.Width(|leaves|, Merkle.Height(|leaves|)) == 1
            && script[6..] == Sha256.Sha256d(Merkle.Node(Merkle.Combine, leaves, Merkle.Height(|leaves|), 0) + ZeroBytes(32))
  {
    hide Sha256.Sha256d, Merkle.Combine, Merkle.RootOf, Merkle.Node, Merkle.Height, Merkle.Width;
    Merkle.RootIsTopNode(Merkle.Combine, [ZeroBytes(32)] + w);
  }

  /** The tag is the pool's name in ASCII. */
  lemma TagText(i: nat)
    requires i < |TAG|
    ensures |TAG| == |"solo-mac-miner"| && TAG[i] == "solo-mac-miner"[i] as int
  {
  }

  /**
   * The override: the least timestamp more than twenty minutes past the parent's, the minimum's bits and target,
   * and a hold until two hours before that timestamp. Everything else stays.
   */
  lemma OverrideQualifies(active: ActiveJob, parentTime: u32, target: Target)
    requires parentTime + 1201 <= U32_MAX
    ensures var job := Override(active, parentTime, target);
            && job.job.time - parentTime > 1200 && job.job.time - 1 - parentTime <= 1200
            && job.job.bits == 0x1D00_FFFF && job.networkTarget == target
            && job.submitNotBefore.Some? && job.submitNotBefore.value + 7200 == job.job.time
            && job == active.(job := active.job.(time := job.job.time, bits := job.job.bits),
                              networkTarget := target, submitNotBefore := job.submitNotBefore)
  {
  }

  /** Whether a job can be built does not depend on its id or on the clean flag. */
  lemma BuildIgnoresIdAndFlag(template: BlockTemplate, payoutScript: Vec<u8>, a: string, cleanA: bool, b: string, cleanB: bool)
    requires Build(a, template, payoutScript, cleanA).Ok?
    ensures Build(b, template, payoutScript, cleanB).Ok?
  {
    hide Build, Readable, CommitmentAgrees, SentinelIsUnique, CommitmentScript, Merkle.BranchOf, WitnessIds, Txids,
         RawTransactions, CompactBits, HashFromText, Decoded;
    BuildSucceedsIff(a, template, payoutScript, cleanA);
    BuildSucceedsIff(b, template, payoutScript, cleanB);
    UniqueIgnoresJob(Draft(a, template, payoutScript, cleanA), Draft(b, template, payoutScript, cleanB));
  }

  lemma UniqueIgnoresJob(a: ActiveJob, b: ActiveJob)
    requires a.height == b.height && a.coinbaseValue == b.coinbaseValue && a.payoutScript == b.payoutScript
    requires a.witnessCommitment == b.witnessCommitment && SentinelIsUnique(a)
    ensures SentinelIsUnique(b)
  {
    SentinelScriptFits(a);
    SentinelScriptFits(b);
    assert Front(a, EXTRANONCE_SIZE) == Front(b, EXTRANONCE_SIZE);
    assert Builder(a, []) == Builder(b, []);
    assert Back(a) == Back(b);
  }
}
