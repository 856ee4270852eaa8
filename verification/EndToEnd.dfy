/** The whole pipeline: template to job, job to miner, miner's nonce to share, share to block. */
module EndToEnd {
  import opened Bytes
  import opened Header
  import opened JobBuilder
  import opened Target
  import opened Transactions
  import opened Validate
  import Block
  import Coinbase
  import Hash256
  import Merkle
  import Search
  import Script
  import Sha256
  import Stratum
  import Worker

  /** A job the pool installs: straight from a template, or with the minimum-difficulty override applied. */
  ghost predicate Issued(active: ActiveJob) {
    exists jobId, template, payoutScript: Vec<u8>, cleanJobs ::
      var built := Build(jobId, template, payoutScript, cleanJobs);
      && built.Ok?
      && (active == built.value
          || exists parentTime: u32, target: Target ::
               Decoded(MIN_DIFFICULTY_BITS) == Ok(target) && active == Override(built.value, parentTime, target))
  }

  /** What every issued job satisfies, and all that the pipeline needs of it. */
  ghost predicate Coherent(active: ActiveJob) {
    && Decoded(active.job.bits) == Ok(active.networkTarget)
    && active.job.merkleBranch == Merkle.BranchOf(Merkle.Combine, [ZERO_HASH] + active.txids)
    && |active.transactions| == |active.txids|
    && Split(active) == Ok((active.job.coinbasePrefix, active.job.coinbaseSuffix))
  }

  /** The split depends only on the parts of a job that go into the coinbase. */
  lemma SplitIgnoresJob(a: ActiveJob, b: ActiveJob)
    requires a.height == b.height && a.coinbaseValue == b.coinbaseValue && a.payoutScript == b.payoutScript
    requires a.witnessCommitment == b.witnessCommitment
    ensures Split(a) == Split(b)
  {
    hide Wire, SentinelOffsets, Coinbase.Built;
    assert Builder(a, SENTINEL) == Builder(b, SENTINEL);
  }

  lemma BuildIsCoherent(jobId: string, template: BlockTemplate, payoutScript: Vec<u8>, cleanJobs: bool)
    requires Build(jobId, template, payoutScript, cleanJobs).Ok?
    ensures Coherent(Build(jobId, template, payoutScript, cleanJobs).value)
  {
    hide Split, Collect, CommitmentScript, Decoded, Merkle.BranchOf, CompactBits, HashFromText;
    var active := Build(jobId, template, payoutScript, cleanJobs).value;
    SplitIgnoresJob(active, active.(job := active.job.(coinbasePrefix := [], coinbaseSuffix := [])));
  }

  lemma IssuedIsCoherent(active: ActiveJob)
    requires Issued(active)
    ensures Coherent(active)
  {
    hide Build, Split, Decoded, Merkle.BranchOf;
    var jobId, template, payoutScript: Vec<u8>, cleanJobs :|
      var built := Build(jobId, template, payoutScript, cleanJobs);
      && built.Ok?
      && (active == built.value
          || exists parentTime: u32, target: Target ::
               Decoded(MIN_DIFFICULTY_BITS) == Ok(target) && active == Override(built.value, parentTime, target));
    BuildIsCoherent(jobId, template, payoutScript, cleanJobs);
    SplitIgnoresJob(active, Build(jobId, template, payoutScript, cleanJobs).value);
  }

  /** The minimum-difficulty override can always be applied: its bits decode to the difficulty-1 target. */
  lemma MinimumDifficultyDecodes()
    ensures Decoded(MIN_DIFFICULTY_BITS).Ok?
    ensures FromBigEndian(Decoded(MIN_DIFFICULTY_BITS).value) == 0xFFFF * Pow256(26)
  {
    var bits := MIN_DIFFICULTY_BITS;
    assert Exponent(bits) == 29 && Mantissa(bits) == 0xFFFF && !SignBit(bits);
    assert CompactValue(bits) == 0xFFFF * Pow256(26);
    assert Pow256(28) == 256 * Pow256(27) && Pow256(27) == 256 * Pow256(26);
    Pow256Monotone(28, 32);
    DecodedValue(bits);
  }

  /** Coherent jobs exist: one with no transactions, no payout script and no commitment. */
  lemma CoherentJobExists()
    ensures exists active :: Coherent(active)
  {
    hide Split, Decoded, Merkle.BranchOf, Merkle.Combine, CompactValue;
    MinimumDifficultyDecodes();
    var branch := Merkle.BranchOf(Merkle.Combine, [ZERO_HASH] + []);
    var plain := ActiveJob(
      Stratum.Job("", ZERO_HASH, [], [], branch, 0, MIN_DIFFICULTY_BITS, 0, true),
      0, 0, [], [], [], [], Decoded(MIN_DIFFICULTY_BITS).value, None);
    PlainJobSplits(plain);
    var (prefix, suffix) := Split(plain).value;
    var active := plain.(job := plain.job.(coinbasePrefix := prefix, coinbaseSuffix := suffix));
    SplitIgnoresJob(active, plain);
    assert Coherent(active);
  }

  /** Miner and pool agree on the coinbase bytes. */
  lemma SameCoinbase(active: ActiveJob, extranonce1: seq<u8>, extranonce2: seq<u8>, coinbase: Transaction)
    requires |extranonce1| + |extranonce2| == EXTRANONCE_SIZE
    requires CoinbaseFor(active, extranonce1 + extranonce2) == Ok(coinbase)
    requires Coherent(active)
    ensures Stratum.CoinbaseBytes(active.job, extranonce1, extranonce2) == Wire(coinbase, Legacy)
  {
    hide Wire, CoinbaseFor, Split, Decoded, Merkle.BranchOf;
    SplitSound(active, active.job.coinbasePrefix, active.job.coinbaseSuffix, extranonce1 + extranonce2);
    Assoc(active.job.coinbasePrefix, extranonce1, extranonce2);
  }

  /** The miner's fold over the branch is the pool's root over all the transactions. */
  lemma SameMerkleRoot(active: ActiveJob, extranonce1: seq<u8>, extranonce2: seq<u8>, coinbase: Transaction)
    requires |extranonce1| + |extranonce2| == EXTRANONCE_SIZE
    requires CoinbaseFor(active, extranonce1 + extranonce2) == Ok(coinbase)
    requires Coherent(active)
    ensures Stratum.MerkleRoot(active.job, extranonce1, extranonce2) == Block.RootOf(coinbase, active.txids)
  {
    hide Wire, CoinbaseFor, Split, Decoded, Sha256.Sha256d, Merkle.Combine, Merkle.BranchOf, Merkle.RootOf, Merkle.FoldBranch;
    SameCoinbase(active, extranonce1, extranonce2, coinbase);
    var leaves := [Block.Txid(coinbase)] + active.txids;
    assert leaves[1..] == ([ZERO_HASH] + active.txids)[1..];
    Merkle.BranchIgnoresFirst(Merkle.Combine, leaves, [ZERO_HASH] + active.txids);
    Merkle.BranchRebuildsRoot(Merkle.Combine, leaves);
  }

  /** The miner's header and the pool's rebuilt header are the same, for every extranonce, time and nonce. */
  lemma SameHeader(active: ActiveJob, extranonce1: seq<u8>, share: Stratum.Share, coinbase: Transaction)
    requires |extranonce1| + |share.extranonce2| == EXTRANONCE_SIZE
    requires CoinbaseFor(active, extranonce1 + share.extranonce2) == Ok(coinbase)
    requires Coherent(active)
    ensures Stratum.HeaderFor(active.job, extranonce1, share.extranonce2, share.time, share.nonce)
            == RebuiltHeader(active, coinbase, share)
  {
    hide Stratum.MerkleRoot, Block.RootOf, CoinbaseFor, Coherent;
    SameMerkleRoot(active, extranonce1, share.extranonce2, coinbase);
  }

  /** For 8 extranonce bytes the verdict is the judgement of the miner's own header, and nothing else. */
  lemma VerdictOnMinersHeader(
    active: ActiveJob, extranonce1: seq<u8>, share: Stratum.Share, coinbase: Transaction, header: BlockHeader)
    requires |active.transactions| < U64_MAX && |extranonce1| + |share.extranonce2| == EXTRANONCE_SIZE
    requires CoinbaseFor(active, extranonce1 + share.extranonce2) == Ok(coinbase)
    requires Coherent(active)
    requires header == Stratum.HeaderFor(active.job, extranonce1, share.extranonce2, share.time, share.nonce)
    ensures Checked(active, share, extranonce1) == Judged(active, coinbase, header, HashOf(header))
  {
    hide Stratum.HeaderFor, RebuiltHeader, CoinbaseFor, Wire, HashOf, Judged, Coherent;
    SameCoinbase(active, extranonce1, share.extranonce2, coinbase);
    SameHeader(active, extranonce1, share, coinbase);
  }

  /** The judgement of a coherent job's header: a block exactly when the hash meets the network target. */
  lemma JudgedCases(active: ActiveJob, coinbase: Transaction, header: BlockHeader, hash: Hash)
    requires Coherent(active) && |active.transactions| < U64_MAX
    ensures var b := Block.BlockBuilder(coinbase, active.transactions, active.txids);
            Judged(active, coinbase, header, hash)
            == if Meets(active.networkTarget, hash) then Ok(SubmitBlock(Block.BlockBytes(header, b), hash))
               else Ok(ShareOnly(hash, Hash256.ZeroBits(hash)))
  {
    hide Meets, Block.BlockBytes, Hash256.ZeroBits, Split, Decoded, Merkle.BranchOf;
  }

  /** What the miner keeps of a notification: the job it decodes and the target its bits stand for. */
  function Received(wire: Stratum.Json): Option<(Stratum.Job, Target)> {
    match Stratum.FromNotifyParams(wire)
    case Err(_) => None
    case Ok(job) => match Decoded(job.bits) case Err(_) => None case Ok(target) => Some((job, target))
  }

  /** The miner's extranonce2 for a claimed counter: its low bytes, big-endian. */
  function ClaimedExtranonce2(counter: u64): (s: seq<u8>)
    ensures |s| == EXTRANONCE2_SIZE
  { BigEndian(counter, EXTRANONCE2_SIZE) }

  /** The share a miner makes of a nonce found on the header it built for a claimed counter. */
  function Solved(worker: string, job: Stratum.Job, counter: u64, nonce: u32): Stratum.Share {
    Stratum.Share(worker, job.jobId, ClaimedExtranonce2(counter), job.time, nonce)
  }

  /** A coherent job reaches the miner intact, with the pool's own target. */
  lemma JobReachesTheMiner(active: ActiveJob)
    requires Coherent(active)
    ensures Received(Stratum.ToNotifyParams(active.job)) == Some((active.job, active.networkTarget))
  {
    hide Coherent, Stratum.ToNotifyParams, Stratum.FromNotifyParams, Decoded;
    TargetOfCoherent(active);
    Stratum.NotifyRoundTrip(active.job);
  }

  /** A submitted share decodes to itself, rebuilds to the solved header, and goes to the node as that header's block. */
  ghost predicate BecomesABlock(
    active: ActiveJob, extranonce1: seq<u8>, share: Stratum.Share, coinbase: Transaction, solved: BlockHeader)
  {
    && |active.transactions| < U64_MAX
    && |extranonce1| + |share.extranonce2| == EXTRANONCE_SIZE
    && CoinbaseFor(active, extranonce1 + share.extranonce2) == Ok(coinbase)
    && Stratum.FromSubmitParams(Stratum.ToSubmitParams(share)) == Ok(share)
    && share.jobId == active.job.jobId
    && RebuiltHeader(active, coinbase, share) == solved
    && Checked(active, share, extranonce1)
       == Ok(SubmitBlock(Block.BlockBytes(solved, Block.BlockBuilder(coinbase, active.transactions, active.txids)),
                         HashOf(solved)))
  }

  lemma SolutionWithCoinbase(
    active: ActiveJob, extranonce1: seq<u8>, counter: u64, worker: string,
    job: Stratum.Job, target: Target, header: BlockHeader, low: nat, high: nat, nonce: u32, coinbase: Transaction)
    requires |active.transactions| < U64_MAX && |extranonce1| == EXTRANONCE1_SIZE && high <= 0x1_0000_0000
    requires CoinbaseFor(active, extranonce1 + ClaimedExtranonce2(counter)) == Ok(coinbase)
    requires Received(Stratum.ToNotifyParams(active.job)) == Some((job, target))
    requires header == Stratum.HeaderFor(job, extranonce1, ClaimedExtranonce2(counter), job.time, 0)
    requires Search.FirstSolution(header, target, low, high) == Some(nonce)
    requires Coherent(active)
    ensures BecomesABlock(active, extranonce1, Solved(worker, job, counter, nonce), coinbase, header.(nonce := nonce))
  {
    hide Coherent, Received, RebuiltHeader, CoinbaseFor, Checked, Judged, Meets, Block.BlockBytes,
         Search.FirstSolution, Stratum.MerkleRoot, Stratum.FromSubmitParams, Stratum.ToSubmitParams, ClaimedExtranonce2, HashOf;
    JobReachesTheMiner(active);
    var share := Solved(worker, job, counter, nonce);
    var solved := header.(nonce := nonce);
    Stratum.SubmitRoundTrip(share);
    Search.FirstSolutionIsFirst(header, target, low, high);
    SameHeader(active, extranonce1, share, coinbase);
    VerdictOnMinersHeader(active, extranonce1, share, coinbase, solved);
    JudgedCases(active, coinbase, solved, HashOf(solved));
  }

  /** Some rebuilt coinbase makes the share a block: the rebuild cannot fail. */
  ghost predicate ReachesTheNode(active: ActiveJob, extranonce1: seq<u8>, share: Stratum.Share, solved: BlockHeader) {
    exists coinbase :: BecomesABlock(active, extranonce1, share, coinbase, solved)
  }

  /**
   * End to end. A nonce the search reports on the header the miner builds from its notification comes
   * back through the submission as a share on which the pool rebuilds that very header, and the verdict
   * is always a block to submit: never a share, a failed rebuild or a coinbase mismatch.
   */
  lemma SolutionReachesTheNode(
    active: ActiveJob, extranonce1: seq<u8>, counter: u64, worker: string,
    job: Stratum.Job, target: Target, header: BlockHeader, low: nat, high: nat, nonce: u32)
    requires |active.transactions| < U64_MAX && |extranonce1| == EXTRANONCE1_SIZE && high <= 0x1_0000_0000
    requires Received(Stratum.ToNotifyParams(active.job)) == Some((job, target))
    requires header == Stratum.HeaderFor(job, extranonce1, ClaimedExtranonce2(counter), job.time, 0)
    requires Search.FirstSolution(header, target, low, high) == Some(nonce)
    requires Coherent(active)
    ensures ReachesTheNode(active, extranonce1, Solved(worker, job, counter, nonce), header.(nonce := nonce))
  {
    hide Coherent, Received, CoinbaseFor, BecomesABlock, Search.FirstSolution, Stratum.HeaderFor, Stratum.ToNotifyParams,
         ClaimedExtranonce2;
    EightBytesRebuild(active, extranonce1 + ClaimedExtranonce2(counter));
    var coinbase := CoinbaseFor(active, extranonce1 + ClaimedExtranonce2(counter)).value;
    SolutionWithCoinbase(active, extranonce1, counter, worker, job, target, header, low, high, nonce, coinbase);
  }

  lemma TargetOfCoherent(active: ActiveJob)
    requires Coherent(active)
    ensures Decoded(active.job.bits) == Ok(active.networkTarget)
  {
  }

  /** With any other total width the pool answers with an error, never with a verdict. */
  lemma OtherWidthsAreRejected(active: ActiveJob, extranonce1: seq<u8>, share: Stratum.Share)
    requires |active.transactions| < U64_MAX && |extranonce1| + |share.extranonce2| <= Script.MAX_PUSH
    requires |extranonce1| + |share.extranonce2| != EXTRANONCE_SIZE
    requires Coherent(active)
    ensures Checked(active, share, extranonce1).Err?
  {
    hide Wire, CoinbaseFor, Split, Decoded, Merkle.BranchOf, Judged, RebuiltHeader, HashOf;
    WrongWidthFails(active, active.job.coinbasePrefix, active.job.coinbaseSuffix, extranonce1 + share.extranonce2);
    Assoc(active.job.coinbasePrefix, extranonce1, share.extranonce2);
  }

  /** A verdict to submit means eight extranonce bytes and the bytes of a block on the rebuilt header. */
  lemma SubmittedParts(
    active: ActiveJob, share: Stratum.Share, extranonce1: seq<u8>, raw: seq<u8>, hash: Hash, coinbase: Transaction)
    requires |active.transactions| < U64_MAX && |extranonce1| + |share.extranonce2| <= Script.MAX_PUSH
    requires CoinbaseFor(active, extranonce1 + share.extranonce2) == Ok(coinbase)
    requires Checked(active, share, extranonce1) == Ok(SubmitBlock(raw, hash))
    requires Coherent(active)
    ensures var header := RebuiltHeader(active, coinbase, share);
            && raw == Block.BlockBytes(header, Block.BlockBuilder(coinbase, active.transactions, active.txids))
            && hash == HashOf(header) && Meets(active.networkTarget, hash)
  {
    hide Checked, CoinbaseFor, HashOf, Meets, Block.BlockBytes, RebuiltHeader, Coherent, Judged;
    if |extranonce1| + |share.extranonce2| != EXTRANONCE_SIZE {
      OtherWidthsAreRejected(active, extranonce1, share);
      assert false;
    } else {
        var header := RebuiltHeader(active, coinbase, share);
      SameHeader(active, extranonce1, share, coinbase);
      VerdictOnMinersHeader(active, extranonce1, share, coinbase, header);
      JudgedCases(active, coinbase, header, HashOf(header));
    }
  }

  /** `raw` starts with a header that hashes to `hash`, meets its own target, and has this job's fields and this root. */
  ghost predicate IsValidWork(raw: seq<u8>, hash: Hash, job: Stratum.Job, share: Stratum.Share, root: Hash) {
    && |raw| >= 80
    && var header := Header.Deserialized(raw[..80]);
       && hash == HashOf(header) && ProofOfWork(header) == Ok(true)
       && header.prevBlock == job.prevHash && header.merkleRoot == root
       && header.version == job.version && header.bits == job.bits && header.time == share.time && header.nonce == share.nonce
  }

  /** The block handed to the node has valid proof of work on a header that commits to its own transactions. */
  lemma SubmittedBlockIsValidWork(
    active: ActiveJob, share: Stratum.Share, extranonce1: seq<u8>, raw: seq<u8>, hash: Hash, coinbase: Transaction)
    requires |active.transactions| < U64_MAX && |extranonce1| + |share.extranonce2| <= Script.MAX_PUSH
    requires CoinbaseFor(active, extranonce1 + share.extranonce2) == Ok(coinbase)
    requires Checked(active, share, extranonce1) == Ok(SubmitBlock(raw, hash))
    requires Coherent(active)
    ensures IsValidWork(raw, hash, active.job, share, Block.RootOf(coinbase, active.txids))
  {
    hide Checked, CoinbaseFor, HashOf, Meets, Block.BlockBytes, Block.RootOf, Header.Deserialized, Coherent, Decoded;
    SubmittedParts(active, share, extranonce1, raw, hash, coinbase);
    TargetOfCoherent(active);
    Block.HeaderReadsBack(RebuiltHeader(active, coinbase, share),
                          Block.BlockBuilder(coinbase, active.transactions, active.txids));
  }

  lemma SentShareWithCoinbase(
    threads: nat, events: seq<Worker.Event>, k: nat, active: ActiveJob, extranonce1: seq<u8>, coinbase: Transaction)
    requires Worker.Runnable(Worker.Init(threads), events) && k < |Worker.Run(Worker.Init(threads), events).outbound|
    requires |active.transactions| < U64_MAX && |extranonce1| == EXTRANONCE1_SIZE
    requires var sub := Worker.Run(Worker.Init(threads), events).outbound[k];
             && sub.h.work == Worker.Work(active.job, extranonce1, EXTRANONCE2_SIZE, active.networkTarget)
             && |sub.share.extranonce2| == EXTRANONCE2_SIZE
             && CoinbaseFor(active, extranonce1 + sub.share.extranonce2) == Ok(coinbase)
    requires Coherent(active)
    ensures var share := Worker.Run(Worker.Init(threads), events).outbound[k].share;
            BecomesABlock(active, extranonce1, share, coinbase,
                          Stratum.HeaderFor(active.job, extranonce1, share.extranonce2, share.time, share.nonce))
  {
    hide Coherent, RebuiltHeader, CoinbaseFor, Checked, Judged, Meets, Block.BlockBytes, HashOf,
         Stratum.HeaderFor, Stratum.FromSubmitParams, Stratum.ToSubmitParams, Worker.Extranonce2;
    Worker.SharesMeetTheirTarget(threads, events, k);
    var share := Worker.Run(Worker.Init(threads), events).outbound[k].share;
    var header := Stratum.HeaderFor(active.job, extranonce1, share.extranonce2, share.time, share.nonce);
    Stratum.SubmitRoundTrip(share);
    SameHeader(active, extranonce1, share, coinbase);
    VerdictOnMinersHeader(active, extranonce1, share, coinbase, header);
    JudgedCases(active, coinbase, header, HashOf(header));
  }

  /**
   * In every interleaving of the miner's threads: every share sent for a coherent job, with the
   * extranonce sizes the pool assigns, is a block when it is checked against that job.
   */
  lemma EveryShareSentIsABlock(
    threads: nat, events: seq<Worker.Event>, k: nat, active: ActiveJob, extranonce1: seq<u8>)
    requires Worker.Runnable(Worker.Init(threads), events) && k < |Worker.Run(Worker.Init(threads), events).outbound|
    requires |active.transactions| < U64_MAX && |extranonce1| == EXTRANONCE1_SIZE
    requires Worker.Run(Worker.Init(threads), events).outbound[k].h.work
             == Worker.Work(active.job, extranonce1, EXTRANONCE2_SIZE, active.networkTarget)
    requires Coherent(active)
    ensures var share := Worker.Run(Worker.Init(threads), events).outbound[k].share;
            ReachesTheNode(active, extranonce1, share,
                           Stratum.HeaderFor(active.job, extranonce1, share.extranonce2, share.time, share.nonce))
  {
    hide Coherent, CoinbaseFor, BecomesABlock, Stratum.HeaderFor, Worker.Extranonce2, HashOf, Meets;
    var sub := Worker.Run(Worker.Init(threads), events).outbound[k];
    Worker.SharesMeetTheirTarget(threads, events, k);
    Worker.ClaimWidth(sub.counter, EXTRANONCE2_SIZE);
    EightBytesRebuild(active, extranonce1 + sub.share.extranonce2);
    var coinbase := CoinbaseFor(active, extranonce1 + sub.share.extranonce2).value;
    SentShareWithCoinbase(threads, events, k, active, extranonce1, coinbase);
  }

  // ---------------------------------------------------------------- for the jobs the pool installs

  /** The end-to-end result for every template a job can be built from, with or without the override. */
  lemma IssuedJobReachesTheNode(
    active: ActiveJob, extranonce1: seq<u8>, counter: u64, worker: string,
    job: Stratum.Job, target: Target, header: BlockHeader, low: nat, high: nat, nonce: u32)
    requires |active.transactions| < U64_MAX && |extranonce1| == EXTRANONCE1_SIZE && high <= 0x1_0000_0000
    requires Received(Stratum.ToNotifyParams(active.job)) == Some((job, target))
    requires header == Stratum.HeaderFor(job, extranonce1, ClaimedExtranonce2(counter), job.time, 0)
    requires Search.FirstSolution(header, target, low, high) == Some(nonce)
    requires Issued(active)
    ensures ReachesTheNode(active, extranonce1, Solved(worker, job, counter, nonce), header.(nonce := nonce))
  {
    hide Issued, Coherent, Received, ReachesTheNode, Search.FirstSolution, Stratum.HeaderFor, Stratum.ToNotifyParams, ClaimedExtranonce2;
    IssuedIsCoherent(active);
    SolutionReachesTheNode(active, extranonce1, counter, worker, job, target, header, low, high, nonce);
  }
}
