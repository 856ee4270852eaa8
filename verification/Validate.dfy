/** Checking a submitted share, up to handing a winning block to the node. */
module Validate {
  import opened Block
  import opened Bytes
  import opened Coinbase
  import opened Header
  import opened JobBuilder
  import opened Target
  import opened Transactions
  import Hash256
  import Merkle
  import Stratum

  /** A share below the network target, or a block that goes to the node. */
  datatype Verdict = ShareOnly(hash: Hash, zeroBits: nat) | SubmitBlock(raw: seq<u8>, hash: Hash)

  datatype ValidationError = Rebuild | CoinbaseMismatch

  /** The header the pool rebuilds: its own job data, the miner's time and nonce. */
  function RebuiltHeader(active: ActiveJob, coinbase: Transaction, share: Stratum.Share): BlockHeader {
    BlockHeader(active.job.version, active.job.prevHash, Block.RootOf(coinbase, active.txids),
                share.time, active.job.bits, share.nonce)
  }

  /** A rebuilt header is a mere share, or a whole block to hand to the node. */
  function Judged(active: ActiveJob, coinbase: Transaction, header: BlockHeader, hash: Hash): Result<Verdict, ValidationError>
    requires |active.transactions| < U64_MAX
  {
    if !Meets(active.networkTarget, hash) then Ok(ShareOnly(hash, Hash256.ZeroBits(hash))) else
    match Block.New(coinbase, active.transactions, active.txids)
    case Err(_) => Err(Rebuild)
    case Ok(b) => Ok(SubmitBlock(BlockBytes(header, b), hash))
  }

  /** What the pool makes of a share. */
  function Checked(active: ActiveJob, share: Stratum.Share, extranonce1: seq<u8>): Result<Verdict, ValidationError>
    requires |extranonce1| + |share.extranonce2| <= Script.MAX_PUSH && |active.transactions| < U64_MAX
  {
    match CoinbaseFor(active, extranonce1 + share.extranonce2)
    case Err(_) => Err(Rebuild)
    case Ok(coinbase) =>
      if Stratum.CoinbaseBytes(active.job, extranonce1, share.extranonce2) != Wire(coinbase, Legacy)
      then Err(CoinbaseMismatch) else
      var header := RebuiltHeader(active, coinbase, share);
      Judged(active, coinbase, header, HashOf(header))
  }

  /** Rebuilds and checks a share. */
  method Check(active: ActiveJob, share: Stratum.Share, extranonce1: seq<u8>) returns (r: Result<Verdict, ValidationError>)
    requires |extranonce1| + |share.extranonce2| <= Script.MAX_PUSH && |active.transactions| < U64_MAX
    ensures r == Checked(active, share, extranonce1)
  {
    hide HashOf, Block.RootOf, Meets, Wire, Header.Serialized, BlockBytes, Built, Merkle.RootOf, Txid;
    var extranonce := extranonce1;
    extranonce := extranonce + share.extranonce2;
    var built := Coinbase.Build(Builder(active, extranonce));
    if built.Err? {
      return Err(Rebuild);
    }
    var coinbase := built.value;
    var spliced := Stratum.CoinbaseBytes(active.job, extranonce1, share.extranonce2);
    var legacy := SerializeLegacy(coinbase);
    if spliced != legacy {
      return Err(CoinbaseMismatch);
    }
    var leaves := [Txid(coinbase)];
    leaves := leaves + active.txids;
    var root := Merkle.MerkleRoot(Merkle.Combine, leaves);
    RootFromLeaves(coinbase, active.txids);
    var header := BlockHeader(active.job.version, active.job.prevHash, root.value, share.time, active.job.bits, share.nonce);
    var hash := HashOf(header);
    var met := IsMetBy(active.networkTarget, hash);
    if !met {
      var zeros := Hash256.LeadingZeroBits(hash);
      return Ok(ShareOnly(hash, zeros));
    }
    match Block.New(coinbase, active.transactions, active.txids)
    case Err(_) => r := Err(Rebuild);
    case Ok(b) =>
      var raw := Block.Serialize(header, b);
      r := Ok(SubmitBlock(raw, hash));
  }

  lemma RootFromLeaves(coinbase: Transaction, txids: seq<Hash>)
    ensures Block.RootOf(coinbase, txids) == Merkle.RootOf(Merkle.Combine, [Txid(coinbase)] + txids)
  {
  }
}
