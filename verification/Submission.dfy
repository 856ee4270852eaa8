/** The block handed to the node, read back: it is the template's block. */
module Submission {
  import opened Bytes
  import opened EndToEnd
  import opened JobBuilder
  import opened Target
  import opened TransactionCodec
  import opened Transactions
  import opened Validate
  import Block
  import ByteOrder
  import Coinbase
  import Header
  import Hex
  import Merkle
  import Reader
  import Script
  import Sha256
  import Stratum
  import Varint

  /** A template that tells the truth about these transactions: their bytes in hex, and their ids as they are displayed. */
  ghost predicate Describes(template: BlockTemplate, txs: seq<Transaction>) {
    && |template.transactions| == |txs|
    && forall i :: 0 <= i < |txs| ==> DescribesOne(template.transactions[i], txs[i])
  }

  ghost predicate DescribesOne(entry: TemplateTransaction, tx: Transaction) {
    && tx.inputs != []
    && entry.data == Hex.Encoded(Serialized(tx)) && entry.txid == ByteOrder.Display(Sha256.Sha256d(Wire(tx, Legacy)))
  }

  /** A job the pool installs from this template: as built, or with the override applied. */
  ghost predicate BuiltFrom(active: ActiveJob, template: BlockTemplate) {
    exists jobId, payoutScript: Vec<u8>, cleanJobs ::
      var built := Build(jobId, template, payoutScript, cleanJobs);
      && built.Ok?
      && (active == built.value
          || exists parentTime: u32, target: Target ::
               Decoded(MIN_DIFFICULTY_BITS) == Ok(target) && active == Override(built.value, parentTime, target))
  }

  function TakeTx(s: seq<u8>): Reader.Parsed<Transaction> {
    match TakeTransaction(s)
    case Err(error) => Err(error)
    case Ok(((tx, _), rest)) => Ok((tx, rest))
  }

  /** The block's bytes are this header and then, counted, exactly these transactions. */
  ghost predicate ReadsBackAs(raw: seq<u8>, header: Header.BlockHeader, txs: seq<Transaction>) {
    && |raw| >= 80 && Header.Deserialized(raw[..80]) == header
    && TakeCounted(TakeTx, raw[80..]) == Ok((txs, []))
  }

  /** The transactions' ids: the double hash of each one's legacy form. */
  function Ids(txs: seq<Transaction>): (ids: seq<Hash>)
    ensures |ids| == |txs|
  {
    seq(|txs|, i requires 0 <= i < |txs| => Sha256.Sha256d(Wire(txs[i], Legacy)))
  }

  /** The top node of the tree over these leaves. */
  ghost predicate IsTopNode(root: Hash, leaves: seq<Hash>) {
    && leaves != [] && Merkle.Width(|leaves|, Merkle.Height(|leaves|)) == 1
    && root == Merkle.Node(Merkle.Combine, leaves, Merkle.Height(|leaves|), 0)
  }

  lemma TakeTxUndoes(tx: Transaction, rest: seq<u8>)
    requires tx.inputs != []
    ensures TakeTx(Serialized(tx) + rest) == Ok((tx, rest))
  {
    hide Wire, TakeTransaction, HasWitness;
    WireInverse(tx, if HasWitness(tx) then Segwit(0x01) else Legacy, rest);
  }

  lemma {:induction false} ConcatIsPrinted(parts: seq<seq<u8>>, txs: seq<Transaction>)
    requires |parts| == |txs| && forall i :: 0 <= i < |txs| ==> parts[i] == Serialized(txs[i])
    ensures Block.Concat(parts) == PrintList(Serialized, txs)
  {
    hide Serialized;
    if txs != [] {
      ConcatIsPrinted(parts[1..], txs[1..]);
    }
  }

  /** A block whose transactions are these reads back as the coinbase and these. */
  lemma BlockReads(header: Header.BlockHeader, b: Block.BlockBuilder, txs: seq<Transaction>)
    requires |txs| + 1 < U64_MAX && |b.transactions| == |txs| && b.coinbase.inputs != []
    requires forall i :: 0 <= i < |txs| ==> txs[i].inputs != [] && b.transactions[i] == Serialized(txs[i])
    ensures ReadsBackAs(Block.BlockBytes(header, b), header, [b.coinbase] + txs)
  {
    hide Header.Serialized, Header.Deserialized, Serialized, Varint.Encoding, TakeTx, TakeCounted, Block.Concat;
    var all: Vec<Transaction> := [b.coinbase] + txs;
    var raw := Block.BlockBytes(header, b);
    Block.HeaderReadsBack(header, b);
    ConcatIsPrinted(b.transactions, txs);
    assert all[1..] == txs;
    assert raw[80..] == Varint.Encoding(|txs| + 1) + (Serialized(b.coinbase) + Block.Concat(b.transactions));
    assert raw[80..] == Counted(Serialized, all);
    forall i, rest | 0 <= i < |all| ensures TakeTx(Serialized(all[i]) + rest) == Ok((all[i], rest)) {
      TakeTxUndoes(all[i], rest);
    }
    assert Counted(Serialized, all) + [] == Counted(Serialized, all);
    CountedInverse(TakeTx, Serialized, all, []);
  }

  lemma BuiltIsIssued(active: ActiveJob, template: BlockTemplate)
    requires BuiltFrom(active, template)
    ensures Issued(active) && TransactionsRead(active, template)
  {
    hide Build, Decoded, TransactionsRead, FieldsRead, WitnessIdsRead, CommitmentScript;
    var jobId, payoutScript: Vec<u8>, cleanJobs :|
      var built := Build(jobId, template, payoutScript, cleanJobs);
      && built.Ok?
      && (active == built.value
          || exists parentTime: u32, target: Target ::
               Decoded(MIN_DIFFICULTY_BITS) == Ok(target) && active == Override(built.value, parentTime, target));
    BuildReadsTheTemplate(jobId, template, payoutScript, cleanJobs);
    SameTransactionsRead(active, Build(jobId, template, payoutScript, cleanJobs).value, template);
  }

  lemma SameTransactionsRead(a: ActiveJob, b: ActiveJob, template: BlockTemplate)
    requires a.txids == b.txids && a.transactions == b.transactions && TransactionsRead(b, template)
    ensures TransactionsRead(a, template)
  {
    hide ByteOrder.FromDisplay, Hex.Decoded;
  }

  /** A truthful template gives the job the transactions' bytes and their ids. */
  lemma DescribedIsRead(active: ActiveJob, template: BlockTemplate, txs: seq<Transaction>)
    requires Describes(template, txs) && TransactionsRead(active, template)
    ensures active.txids == Ids(txs) && |active.transactions| == |txs|
    ensures forall i :: 0 <= i < |txs| ==> active.transactions[i] == Serialized(txs[i])
  {
    hide ByteOrder.FromDisplay, ByteOrder.Display, Hex.Decoded, Hex.Encoded, Serialized, Wire, Sha256.Sha256d;
    forall i | 0 <= i < |txs| ensures active.txids[i] == Ids(txs)[i] && active.transactions[i] == Serialized(txs[i]) {
      assert DescribesOne(template.transactions[i], txs[i]);
      ByteOrder.DisplayReadsBack(Sha256.Sha256d(Wire(txs[i], Legacy)));
      Hex.DecodeEncoded(Serialized(txs[i]));
    }
  }

  /** The coinbase and the template's transactions under a header that commits to all of their ids. */
  ghost predicate IsTemplatesBlock(raw: seq<u8>, header: Header.BlockHeader, coinbase: Transaction, txs: seq<Transaction>) {
    ReadsBackAs(raw, header, [coinbase] + txs) && IsTopNode(header.merkleRoot, Ids([coinbase] + txs))
  }

  /**
   * What is submitted for a share on a template that describes these transactions: the bytes read back as the
   * rebuilt coinbase and exactly those transactions, under a header whose root is the top node of the tree over
   * their ids, and whose hash is the one reported.
   */
  lemma SubmittedBlockIsTheTemplates(
    template: BlockTemplate, txs: seq<Transaction>, active: ActiveJob, share: Stratum.Share, extranonce1: seq<u8>,
    raw: seq<u8>, hash: Hash, coinbase: Transaction)
    requires Describes(template, txs) && |txs| + 1 < U64_MAX
    requires |active.transactions| < U64_MAX && |extranonce1| + |share.extranonce2| <= Script.MAX_PUSH
    requires CoinbaseFor(active, extranonce1 + share.extranonce2) == Ok(coinbase)
    requires Checked(active, share, extranonce1) == Ok(SubmitBlock(raw, hash))
    requires BuiltFrom(active, template)
    ensures var header := RebuiltHeader(active, coinbase, share);
            IsTemplatesBlock(raw, header, coinbase, txs) && hash == Header.HashOf(header)
  {
    hide Describes, TransactionsRead, BuiltFrom, Issued, Coherent, Checked, CoinbaseFor, Header.HashOf, Meets, Block.BlockBytes,
         ReadsBackAs, Sha256.Sha256d, Wire, Serialized, Merkle.Combine, Merkle.RootOf, IsTopNode;
    var header := RebuiltHeader(active, coinbase, share);
    BuiltIsIssued(active, template);
    IssuedIsCoherent(active);
    SubmittedParts(active, share, extranonce1, raw, hash, coinbase);
    DescribedIsRead(active, template, txs);
    DescribedInputs(template, txs);
    RebuiltHasInput(active, extranonce1 + share.extranonce2);
    BlockReads(header, Block.BlockBuilder(coinbase, active.transactions, active.txids), txs);
    assert Ids([coinbase] + txs) == [Block.Txid(coinbase)] + active.txids;
    RootIsTop(Ids([coinbase] + txs));
  }

  lemma RootIsTop(leaves: seq<Hash>)
    requires leaves != []
    ensures IsTopNode(Merkle.RootOf(Merkle.Combine, leaves), leaves)
  {
    hide Merkle.Combine, Merkle.RootOf, Merkle.Node, Merkle.Height, Merkle.Width;
    Merkle.RootIsTopNode(Merkle.Combine, leaves);
  }

  lemma DescribedInputs(template: BlockTemplate, txs: seq<Transaction>)
    requires Describes(template, txs)
    ensures forall i :: 0 <= i < |txs| ==> txs[i].inputs != []
  {
    hide ByteOrder.Display, Hex.Encoded, Serialized, Wire, Sha256.Sha256d;
    forall i | 0 <= i < |txs| ensures txs[i].inputs != [] {
      assert DescribesOne(template.transactions[i], txs[i]);
    }
  }

  lemma RebuiltHasInput(active: ActiveJob, extranonce: Coinbase.Element)
    requires CoinbaseFor(active, extranonce).Ok?
    ensures CoinbaseFor(active, extranonce).value.inputs != []
  {
    hide Coinbase.ScriptSig;
  }
}
