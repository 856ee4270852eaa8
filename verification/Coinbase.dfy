/** Building the coinbase transaction. */
module Coinbase {
  import opened Bytes
  import opened Script
  import opened Transactions

  const MIN_SCRIPT_SIG := 2
  const MAX_SCRIPT_SIG := 100

  datatype CoinbaseError = ScriptSigLength(length: nat)

  /** A pushed element; longer ones panic before a script is produced. */
  type Element = s: seq<u8> | |s| <= MAX_PUSH

  datatype CoinbaseBuilder = CoinbaseBuilder(
    height: u32, value: u64, payoutScript: Vec<u8>, extranonce: Element, tag: Element,
    witnessCommitment: Option<Vec<u8>>)

  function OptionalPush(data: Element): seq<u8> { if data == [] then [] else Push(data) }

  function ScriptSig(b: CoinbaseBuilder): seq<u8> {
    BlockHeight(b.height) + (OptionalPush(b.extranonce) + OptionalPush(b.tag))
  }

  function Outputs(b: CoinbaseBuilder): Vec<TxOut> {
    [TxOut(b.value, b.payoutScript)]
    + match b.witnessCommitment case Some(script) => [TxOut(0, script)] case None => []
  }

  function Built(b: CoinbaseBuilder): Result<Transaction, CoinbaseError> {
    var scriptSig := ScriptSig(b);
    if MIN_SCRIPT_SIG <= |scriptSig| <= MAX_SCRIPT_SIG then
      var stack: Vec<Vec<u8>> := if b.witnessCommitment.Some? then [ZERO_HASH] else [];
      Ok(Transaction(2, [TxIn(NULL_OUTPOINT, scriptSig, U32_MAX, stack)], Outputs(b), 0))
    else Err(ScriptSigLength(|scriptSig|))
  }

  /** The height, then pushes of whatever extranonce and tag there are. */
  method BuildScriptSig(b: CoinbaseBuilder) returns (script: seq<u8>)
    ensures script == ScriptSig(b)
  {
    hide Push, BlockHeight;
    var height := EncodeBlockHeight(b.height);
    script := [] + height;
    if b.extranonce != [] {
      script := PushData(b.extranonce, script);
    }
    assert script == BlockHeight(b.height) + OptionalPush(b.extranonce);
    Assoc(BlockHeight(b.height), OptionalPush(b.extranonce), OptionalPush(b.tag));
    if b.tag != [] {
      script := PushData(b.tag, script);
    }
  }

  method Build(b: CoinbaseBuilder) returns (r: Result<Transaction, CoinbaseError>)
    ensures r == Built(b)
  {
    hide ScriptSig;
    var scriptSig := BuildScriptSig(b);
    if |scriptSig| < MIN_SCRIPT_SIG || |scriptSig| > MAX_SCRIPT_SIG {
      return Err(ScriptSigLength(|scriptSig|));
    }
    var stack: Vec<Vec<u8>> := [];
    var outputs := [TxOut(b.value, b.payoutScript)];
    if b.witnessCommitment.Some? {
      stack := [ZERO_HASH];
      outputs := outputs + [TxOut(0, b.witnessCommitment.value)];
    }
    assert outputs == Outputs(b);
    r := Ok(Transaction(2, [TxIn(NULL_OUTPOINT, scriptSig, U32_MAX, stack)], outputs, 0));
  }

  /** Every element a script pushes, if it consists of pushes only. */
  function ReadPushes(script: seq<u8>): Option<seq<seq<u8>>>
    decreases |script|
  {
    if script == [] then Some([]) else
    match ReadPush(script)
    case None => None
    case Some((data, rest)) =>
      match ReadPushes(rest) case None => None case Some(others) => Some([data] + others)
  }

  function NonEmpty(data: Element): seq<seq<u8>> { if data == [] then [] else [data] }

  lemma OptionalPushReads(data: Element, rest: seq<u8>, others: seq<seq<u8>>)
    requires ReadPushes(rest) == Some(others)
    ensures ReadPushes(OptionalPush(data) + rest) == Some(NonEmpty(data) + others)
  {
    hide ReadPush, Push;
    if data == [] {
      assert [] + rest == rest && NonEmpty(data) + others == others;
    } else {
      ReadPushInverse(data, rest);
      PushIsNotEmpty(data);
    }
  }

  lemma PushIsNotEmpty(data: Element)
    ensures Push(data) != []
  {
  }

  /** The script reads back as the height and then exactly the elements that are not empty, with nothing after. */
  lemma ScriptSigReadsBack(b: CoinbaseBuilder)
    ensures var height := ReadHeight(ScriptSig(b));
            && height.Some? && height.value.0 == b.height
            && ReadPushes(height.value.1) == Some(NonEmpty(b.extranonce) + NonEmpty(b.tag))
  {
    hide BlockHeight, ReadHeight, ReadPush, OptionalPush, NonEmpty;
    var pushes := OptionalPush(b.extranonce) + OptionalPush(b.tag);
    ReadHeightInverse(b.height, pushes);
    OptionalPushReads(b.tag, [], []);
    assert OptionalPush(b.tag) + [] == OptionalPush(b.tag) && NonEmpty(b.tag) + [] == NonEmpty(b.tag);
    OptionalPushReads(b.extranonce, OptionalPush(b.tag), NonEmpty(b.tag));
  }

  lemma HeightLength(height: u32)
    ensures 1 <= |BlockHeight(height)| <= 6
  {
    hide Number;
    NumberLength(height);
  }

  /** With an 8-byte extranonce the build succeeds exactly for tags that leave the height room: always up to 83 bytes. */
  lemma ScriptSigLengthInRange(b: CoinbaseBuilder)
    requires |b.extranonce| == 8
    ensures MIN_SCRIPT_SIG <= |ScriptSig(b)| <= MAX_SCRIPT_SIG <==> |BlockHeight(b.height)| + |b.tag| <= 89
    ensures Built(b).Ok? <==> |BlockHeight(b.height)| + |b.tag| <= 89
    ensures |b.tag| <= 83 ==> Built(b).Ok?
  {
    hide BlockHeight;
    HeightLength(b.height);
  }

  /** Everything the coinbase pays, output by output. */
  function TotalPaid(outputs: seq<TxOut>): nat {
    if outputs == [] then 0 else outputs[0].value + TotalPaid(outputs[1..])
  }

  /**
   * What a built coinbase is: one input that spends nothing, the whole value in the first output to the payout
   * script, at most a worthless commitment output after it, and a witness exactly with a commitment.
   */
  lemma RewardGoesToPayout(b: CoinbaseBuilder)
    requires Built(b).Ok?
    ensures var tx := Built(b).value;
            && |tx.inputs| == 1 && tx.inputs[0].previousOutput == OutPoint(ZeroBytes(32), 0xFFFF_FFFF)
            && tx.inputs[0].scriptSig == ScriptSig(b)
            && |tx.outputs| >= 1 && tx.outputs[0].scriptPubkey == b.payoutScript && tx.outputs[0].value == b.value
            && TotalPaid(tx.outputs) == b.value
            && (|tx.outputs| == 2 <==> b.witnessCommitment.Some?)
            && (b.witnessCommitment.Some? ==>
                  tx.outputs[1].scriptPubkey == b.witnessCommitment.value && tx.inputs[0].stack == [ZeroBytes(32)])
            && (HasWitness(tx) <==> b.witnessCommitment.Some?)
            && tx.version == 2 && tx.lockTime == 0 && tx.inputs[0].sequence == 0xFFFF_FFFF
  {
    hide ScriptSig;
    var tx := Built(b).value;
    assert TotalPaid(tx.outputs[1..]) == 0 by {
      if |tx.outputs| == 2 {
        assert tx.outputs[1..][1..] == [];
      } else {
        assert tx.outputs[1..] == [];
      }
    }
    if b.witnessCommitment.Some? {
      assert tx.inputs[0].stack != [];
    }
  }

  /** The build fails exactly outside the consensus bounds on the script's length, and reports that length. */
  lemma BuildFailsIff(b: CoinbaseBuilder)
    ensures Built(b).Ok? <==> 2 <= |ScriptSig(b)| <= 100
    ensures Built(b).Err? ==> Built(b).error == ScriptSigLength(|ScriptSig(b)|)
  {
    hide ScriptSig;
  }
}
