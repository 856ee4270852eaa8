/** Assembling a complete block. */
module Block {
  import opened Bytes
  import opened Header
  import opened Transactions
  import opened TransactionCodec
  import Merkle
  import Reader
  import Sha256
  import Varint

  datatype BlockBuilder = BlockBuilder(coinbase: Transaction, transactions: seq<seq<u8>>, txids: seq<Hash>)

  datatype BlockError = CountMismatch(transactions: nat, txids: nat)

  /** The transaction id: the double hash of the witness-free serialisation. */
  function Txid(tx: Transaction): Hash { Sha256.Sha256d(Wire(tx, Legacy)) }

  function New(coinbase: Transaction, transactions: seq<seq<u8>>, txids: seq<Hash>): Result<BlockBuilder, BlockError> {
    if |transactions| != |txids| then Err(CountMismatch(|transactions|, |txids|))
    else Ok(BlockBuilder(coinbase, transactions, txids))
  }

  function RootOf(coinbase: Transaction, txids: seq<Hash>): Hash {
    Merkle.RootOf(Merkle.Combine, [Txid(coinbase)] + txids)
  }

  function Concat(parts: seq<seq<u8>>): seq<u8> {
    if parts == [] then [] else parts[0] + Concat(parts[1..])
  }

  /** The header, the transaction count, the coinbase with its witness, the other transactions. */
  function BlockBytes(header: BlockHeader, b: BlockBuilder): seq<u8>
    requires |b.transactions| < U64_MAX
  {
    Header.Serialized(header)
    + (Varint.Encoding(|b.transactions| + 1) + (Transactions.Serialized(b.coinbase) + Concat(b.transactions)))
  }

  method Serialize(header: BlockHeader, b: BlockBuilder) returns (block: seq<u8>)
    requires |b.transactions| < U64_MAX
    ensures block == BlockBytes(header, b)
  {
    hide Header.Serialized, Transactions.Serialized, Varint.Encoding;
    block := Header.Serialize(header);
    block := Varint.Encode(|b.transactions| + 1, block);
    var coinbase := Transactions.Serialize(b.coinbase);
    block := block + coinbase;
    ghost var head := block;
    for i := 0 to |b.transactions|
      invariant block + Concat(b.transactions[i..]) == head + Concat(b.transactions)
    {
      assert b.transactions[i..][1..] == b.transactions[i + 1..];
      Assoc(block, b.transactions[i], Concat(b.transactions[i + 1..]));
      block := block + b.transactions[i];
    }
    assert block == head + Concat(b.transactions);
    ghost var h, v := Header.Serialized(header), Varint.Encoding(|b.transactions| + 1);
    Assoc(h + v, coinbase, Concat(b.transactions));
    Assoc(h, v, coinbase + Concat(b.transactions));
  }

  method MerkleRoot(b: BlockBuilder) returns (root: Hash)
    ensures root == RootOf(b.coinbase, b.txids)
  {
    hide Txid, Merkle.Combine;
    var leaves := [Txid(b.coinbase)];
    leaves := leaves + b.txids;
    var r := Merkle.MerkleRoot(Merkle.Combine, leaves);
    root := r.value;
  }

  lemma HeaderReadsBack(header: BlockHeader, b: BlockBuilder)
    requires |b.transactions| < U64_MAX
    ensures |BlockBytes(header, b)| >= 80
    ensures Header.Deserialized(BlockBytes(header, b)[..80]) == header
  {
    hide Header.Serialized, Header.Deserialized, Wire, Varint.Encoding;
    assert BlockBytes(header, b)[..80] == Header.Serialized(header);
    DeserializeSerialized(header);
  }

  /** The block reads back: the header, the count, the coinbase with its witness, and then the other transactions. */
  lemma BlockReadsBack(header: BlockHeader, b: BlockBuilder)
    requires |b.transactions| < U64_MAX && b.coinbase.inputs != []
    ensures var block := BlockBytes(header, b);
            && |block| >= 80 && Header.Deserialized(block[..80]) == header
            && var count := Reader.TakeVarint(block[80..]);
               && count.Ok? && count.value.0 == |b.transactions| + 1
               && var coinbase := TakeTransaction(count.value.1);
                  && coinbase.Ok? && coinbase.value.0.0 == b.coinbase
                  && coinbase.value.1 == Concat(b.transactions)
  {
    hide Header.Serialized, Header.Deserialized, Wire, Varint.Encoding, TakeTransaction, Reader.TakeVarint;
    var tail := Transactions.Serialized(b.coinbase) + Concat(b.transactions);
    var block := BlockBytes(header, b);
    assert block[80..] == Varint.Encoding(|b.transactions| + 1) + tail;
    HeaderReadsBack(header, b);
    Reader.TakeVarintInverse(|b.transactions| + 1, tail);
    WireInverse(b.coinbase, if HasWitness(b.coinbase) then Segwit(0x01) else Legacy, Concat(b.transactions));
  }

  /** A builder needs exactly one id for every transaction. */
  lemma NewIff(coinbase: Transaction, transactions: seq<seq<u8>>, txids: seq<Hash>)
    ensures New(coinbase, transactions, txids).Ok? <==> |transactions| == |txids|
    ensures New(coinbase, transactions, txids).Ok? ==>
              New(coinbase, transactions, txids).value == BlockBuilder(coinbase, transactions, txids)
  {
  }
}
