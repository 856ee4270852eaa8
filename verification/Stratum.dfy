/** Stratum jobs and shares, and their JSON wire forms. */
module Stratum {
  import opened Bytes
  import opened ByteOrder
  import opened Header
  import Hex
  import Merkle
  import Sha256

  /** The parameter values the protocol uses; every other JSON value is `Other`. */
  datatype Json = Str(text: string) | Arr(items: seq<Json>) | Bool(flag: bool) | Other

  datatype Job = Job(
    jobId: string, prevHash: Hash, coinbasePrefix: seq<u8>, coinbaseSuffix: seq<u8>, merkleBranch: seq<Hash>,
    version: i32, bits: u32, time: u32, cleanJobs: bool)

  datatype Share = Share(worker: string, jobId: string, extranonce2: seq<u8>, time: u32, nonce: u32)

  datatype ParamError = NotAnArray | WrongParameterCount(count: nat) | NotAString(index: nat) | NotHex(index: nat)

  // ---------------------------------------------------------------- building headers

  function CoinbaseBytes(job: Job, extranonce1: seq<u8>, extranonce2: seq<u8>): seq<u8> {
    job.coinbasePrefix + extranonce1 + extranonce2 + job.coinbaseSuffix
  }

  function MerkleRoot(job: Job, extranonce1: seq<u8>, extranonce2: seq<u8>): Hash {
    Merkle.FoldBranch(Merkle.Combine, Sha256.Sha256d(CoinbaseBytes(job, extranonce1, extranonce2)), job.merkleBranch)
  }

  function HeaderFor(job: Job, extranonce1: seq<u8>, extranonce2: seq<u8>, time: u32, nonce: u32): BlockHeader {
    BlockHeader(job.version, job.prevHash, MerkleRoot(job, extranonce1, extranonce2), time, job.bits, nonce)
  }

  // ---------------------------------------------------------------- mining.notify

  function HashTexts(hashes: seq<Hash>): seq<Json> {
    seq(|hashes|, i requires 0 <= i < |hashes| => Str(Hex.Encoded(hashes[i])))
  }

  function ToNotifyParams(job: Job): Json {
    Arr([Str(job.jobId),
         Str(Hex.Encoded(HashToStratum(job.prevHash))),
         Str(Hex.Encoded(job.coinbasePrefix)),
         Str(Hex.Encoded(job.coinbaseSuffix)),
         Arr(HashTexts(job.merkleBranch)),
         Str(Hex.U32Text(Unsigned(job.version))),
         Str(Hex.U32Text(job.bits)),
         Str(Hex.U32Text(job.time)),
         Bool(job.cleanJobs)])
  }

  function TextAt(items: seq<Json>, index: nat): Result<string, ParamError>
    requires index < |items|
  {
    if items[index].Str? then Ok(items[index].text) else Err(NotAString(index))
  }

  function U32At(items: seq<Json>, index: nat): Result<u32, ParamError>
    requires index < |items|
  {
    var text :- TextAt(items, index);
    match Hex.U32FromText(text)
    case Some(v) => Ok(v)
    case None => Err(NotHex(index))
  }

  function BytesAt(items: seq<Json>, index: nat): Result<seq<u8>, ParamError>
    requires index < |items|
  {
    var text :- TextAt(items, index);
    match Hex.Decoded(text)
    case Ok(bytes) => Ok(bytes)
    case Err(_) => Err(NotHex(index))
  }

  /** A 32-byte field; any error is reported at position `index` of the parameters. */
  function HashFrom(item: Json, index: nat): Result<Hash, ParamError> {
    if !item.Str? then Err(NotAString(index)) else
    match Hex.DecodedArray(item.text, 32)
    case Ok(bytes) => Ok(bytes)
    case Err(_) => Err(NotHex(index))
  }

  function HashesFrom(items: seq<Json>): Result<seq<Hash>, ParamError> {
    if items == [] then Ok([]) else
    var first :- HashFrom(items[0], 4);
    var rest :- HashesFrom(items[1..]);
    Ok([first] + rest)
  }

  function FromNotifyParams(params: Json): Result<Job, ParamError> {
    if !params.Arr? then Err(NotAnArray) else
    var a := params.items;
    if |a| < 9 then Err(WrongParameterCount(|a|)) else
    var prev :- HashFrom(a[1], 1);
    if !a[4].Arr? then Err(NotAnArray) else
    var branch :- HashesFrom(a[4].items);
    var jobId :- TextAt(a, 0);
    var prefix :- BytesAt(a, 2);
    var suffix :- BytesAt(a, 3);
    var version :- U32At(a, 5);
    var bits :- U32At(a, 6);
    var time :- U32At(a, 7);
    Ok(Job(jobId, HashFromStratum(prev), prefix, suffix, branch, Signed(version), bits, time,
           a[8].Bool? && a[8].flag))
  }

  // ---------------------------------------------------------------- mining.submit

  function ToSubmitParams(share: Share): Json {
    Arr([Str(share.worker), Str(share.jobId), Str(Hex.Encoded(share.extranonce2)),
         Str(Hex.U32Text(share.time)), Str(Hex.U32Text(share.nonce))])
  }

  function FromSubmitParams(params: Json): Result<Share, ParamError> {
    if !params.Arr? then Err(NotAnArray) else
    var a := params.items;
    if |a| < 5 then Err(WrongParameterCount(|a|)) else
    var worker :- TextAt(a, 0);
    var jobId :- TextAt(a, 1);
    var extranonce2 :- BytesAt(a, 2);
    var time :- U32At(a, 3);
    var nonce :- U32At(a, 4);
    Ok(Share(worker, jobId, extranonce2, time, nonce))
  }

  // ---------------------------------------------------------------- round trips

  lemma HashFieldInverse(hash: Hash, index: nat)
    ensures HashFrom(Str(Hex.Encoded(hash)), index) == Ok(hash)
  {
    hide Hex.Encoded, Hex.DecodedArray;
    Hex.DecodeEncoded(hash);
  }

  lemma {:induction false} HashesInverse(hashes: seq<Hash>)
    ensures HashesFrom(HashTexts(hashes)) == Ok(hashes)
    decreases |hashes|
  {
    hide Hex.Encoded, HashFrom;
    if hashes != [] {
      HashFieldInverse(hashes[0], 4);
      assert HashTexts(hashes)[1..] == HashTexts(hashes[1..]);
      HashesInverse(hashes[1..]);
      assert [hashes[0]] + hashes[1..] == hashes;
    }
  }

  /** Decoding a notification gives back the job, for every job. */
  lemma NotifyRoundTrip(job: Job)
    ensures FromNotifyParams(ToNotifyParams(job)) == Ok(job)
  {
    hide Hex.Encoded, Hex.U32Text, Hex.Decoded, Hex.U32FromText, HashFrom, HashesFrom, HashTexts, Swapped;
    HashFieldInverse(HashToStratum(job.prevHash), 1);
    SwapTwice(job.prevHash);
    HashesInverse(job.merkleBranch);
    Hex.DecodeEncoded(job.coinbasePrefix);
    Hex.DecodeEncoded(job.coinbaseSuffix);
    Hex.U32TextInverse(Unsigned(job.version));
    Hex.U32TextInverse(job.bits);
    Hex.U32TextInverse(job.time);
  }

  /** Decoding a submission gives back the share, for every share. */
  lemma SubmitRoundTrip(share: Share)
    ensures FromSubmitParams(ToSubmitParams(share)) == Ok(share)
  {
    hide Hex.Encoded, Hex.U32Text, Hex.Decoded, Hex.U32FromText;
    Hex.DecodeEncoded(share.extranonce2);
    Hex.U32TextInverse(share.time);
    Hex.U32TextInverse(share.nonce);
  }

  // ---------------------------------------------------------------- the documented shape

  /** The nine notify parameters, in order; numbers are eight hex digits, most significant first. */
  lemma NotifyShape(job: Job)
    ensures var params := ToNotifyParams(job);
            && params.Arr? && |params.items| == 9
            && params.items[0] == Str(job.jobId)
            && params.items[1] == Str(ByteOrder.GroupsReversed(ByteOrder.Display(job.prevHash)))
            && params.items[2] == Str(Hex.Encoded(job.coinbasePrefix)) && params.items[3] == Str(Hex.Encoded(job.coinbaseSuffix))
            && params.items[4].Arr? && |params.items[4].items| == |job.merkleBranch|
            && (forall i :: 0 <= i < |job.merkleBranch| ==> params.items[4].items[i] == Str(Hex.Encoded(job.merkleBranch[i])))
            && params.items[5] == Str(Hex.Encoded(BigEndian(Unsigned(job.version), 4)))
            && params.items[6] == Str(Hex.Encoded(BigEndian(job.bits, 4)))
            && params.items[7] == Str(Hex.Encoded(BigEndian(job.time, 4))) && params.items[8] == Bool(job.cleanJobs)
  {
    hide Hex.Encoded, BigEndian, ByteOrder.GroupsReversed;
    ByteOrder.SwapIsGroupReversal(job.prevHash);
  }

  /** The five submit parameters, in order. */
  lemma SubmitShape(share: Share)
    ensures var params := ToSubmitParams(share);
            && params.Arr? && |params.items| == 5
            && params.items[0] == Str(share.worker) && params.items[1] == Str(share.jobId)
            && params.items[2] == Str(Hex.Encoded(share.extranonce2))
            && params.items[3] == Str(Hex.Encoded(BigEndian(share.time, 4)))
            && params.items[4] == Str(Hex.Encoded(BigEndian(share.nonce, 4)))
  {
    hide Hex.Encoded, BigEndian;
  }
}
