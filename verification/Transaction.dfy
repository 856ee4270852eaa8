/** Transactions: the two serialisations, the parser, and how each undoes the other. */
module Transactions {
  import opened Bytes
  import opened Reader
  import Varint

  datatype OutPoint = OutPoint(txid: Hash, vout: u32)

  datatype TxIn = TxIn(previousOutput: OutPoint, scriptSig: Vec<u8>, sequence: u32, stack: Vec<Vec<u8>>)

  datatype TxOut = TxOut(value: u64, scriptPubkey: Vec<u8>)

  datatype Transaction = Transaction(version: i32, inputs: Vec<TxIn>, outputs: Vec<TxOut>, lockTime: u32)

  /** Which of the two wire layouts a byte string uses; the flag byte is read and then ignored. */
  datatype Layout = Legacy | Segwit(flag: u8)

  const NULL_OUTPOINT := OutPoint(ZERO_HASH, U32_MAX)

  predicate HasWitness(tx: Transaction) {
    exists i :: 0 <= i < |tx.inputs| && tx.inputs[i].stack != []
  }

  // ---------------------------------------------------------------- the byte strings

  function PrintList<T>(encode: T -> seq<u8>, items: seq<T>): seq<u8> {
    if items == [] then [] else encode(items[0]) + PrintList(encode, items[1..])
  }

  function Counted<T>(encode: T -> seq<u8>, items: Vec<T>): seq<u8> {
    Varint.Encoding(|items|) + PrintList(encode, items)
  }

  function InputBytes(input: TxIn): seq<u8> {
    input.previousOutput.txid + (LittleEndian(input.previousOutput.vout, 4)
      + (VarBytes(input.scriptSig) + LittleEndian(input.sequence, 4)))
  }

  function OutputBytes(output: TxOut): seq<u8> {
    LittleEndian(output.value, 8) + VarBytes(output.scriptPubkey)
  }

  function StackBytes(stack: Vec<Vec<u8>>): seq<u8> {
    Counted(VarBytes, stack)
  }

  function Stacks(inputs: seq<TxIn>): (stacks: seq<Vec<Vec<u8>>>)
    ensures |stacks| == |inputs|
  {
    seq(|inputs|, i requires 0 <= i < |inputs| => inputs[i].stack)
  }

  function Marker(layout: Layout): seq<u8> {
    match layout
    case Legacy => []
    case Segwit(flag) => [0x00, flag]
  }

  function Witnesses(tx: Transaction, layout: Layout): seq<u8> {
    if layout.Legacy? then [] else PrintList(StackBytes, Stacks(tx.inputs))
  }

  /** The bytes of `tx` in a given layout. */
  function Wire(tx: Transaction, layout: Layout): seq<u8> {
    LittleEndian(Unsigned(tx.version), 4)
    + (Marker(layout)
       + (Counted(InputBytes, tx.inputs)
          + (Counted(OutputBytes, tx.outputs)
             + (Witnesses(tx, layout) + LittleEndian(tx.lockTime, 4)))))
  }

  /** The format used in blocks: SegWit with flag 1 exactly when some input carries a witness. */
  function Serialized(tx: Transaction): seq<u8> {
    Wire(tx, if HasWitness(tx) then Segwit(0x01) else Legacy)
  }

  // ---------------------------------------------------------------- the printers

  method WriteInput(input: TxIn, out: seq<u8>) returns (longer: seq<u8>)
    ensures longer == out + InputBytes(input)
  {
    longer := out + input.previousOutput.txid;
    ghost var s1 := longer;
    longer := longer + LittleEndian(input.previousOutput.vout, 4);
    ghost var s2 := longer;
    longer := WriteVarBytes(input.scriptSig, longer);
    longer := longer + LittleEndian(input.sequence, 4);
    ghost var tail := VarBytes(input.scriptSig) + LittleEndian(input.sequence, 4);
    Assoc(s2, VarBytes(input.scriptSig), LittleEndian(input.sequence, 4));
    Assoc(s1, LittleEndian(input.previousOutput.vout, 4), tail);
    Assoc(out, input.previousOutput.txid, LittleEndian(input.previousOutput.vout, 4) + tail);
  }

  method WriteVarBytes(data: Vec<u8>, out: seq<u8>) returns (longer: seq<u8>)
    ensures longer == out + VarBytes(data)
  {
    longer := Varint.Encode(|data|, out);
    longer := longer + data;
    Assoc(out, Varint.Encoding(|data|), data);
  }

  /** One step of a printing loop: the item moves from the pending list to the output. */
  lemma PrintStep<T>(encode: T -> seq<u8>, items: seq<T>, i: nat, out: seq<u8>)
    requires i < |items|
    ensures (out + encode(items[i])) + PrintList(encode, items[i + 1..]) == out + PrintList(encode, items[i..])
  {
    assert items[i..][1..] == items[i + 1..];
    Assoc(out, encode(items[i]), PrintList(encode, items[i + 1..]));
  }

  method WriteInputs(tx: Transaction, out: seq<u8>) returns (longer: seq<u8>)
    ensures longer == out + Counted(InputBytes, tx.inputs)
  {
    longer := Varint.Encode(|tx.inputs|, out);
    ghost var start := longer;
    for i := 0 to |tx.inputs|
      invariant longer + PrintList(InputBytes, tx.inputs[i..]) == start + PrintList(InputBytes, tx.inputs)
    {
      PrintStep(InputBytes, tx.inputs, i, longer);
      longer := WriteInput(tx.inputs[i], longer);
    }
    Assoc(out, Varint.Encoding(|tx.inputs|), PrintList(InputBytes, tx.inputs));
  }

  method WriteOutputs(tx: Transaction, out: seq<u8>) returns (longer: seq<u8>)
    ensures longer == out + Counted(OutputBytes, tx.outputs)
  {
    longer := Varint.Encode(|tx.outputs|, out);
    ghost var start := longer;
    for i := 0 to |tx.outputs|
      invariant longer + PrintList(OutputBytes, tx.outputs[i..]) == start + PrintList(OutputBytes, tx.outputs)
    {
      PrintStep(OutputBytes, tx.outputs, i, longer);
      Assoc(longer, LittleEndian(tx.outputs[i].value, 8), VarBytes(tx.outputs[i].scriptPubkey));
      longer := longer + LittleEndian(tx.outputs[i].value, 8);
      longer := WriteVarBytes(tx.outputs[i].scriptPubkey, longer);
    }
    Assoc(out, Varint.Encoding(|tx.outputs|), PrintList(OutputBytes, tx.outputs));
  }

  method WriteStack(stack: Vec<Vec<u8>>, out: seq<u8>) returns (longer: seq<u8>)
    ensures longer == out + StackBytes(stack)
  {
    longer := Varint.Encode(|stack|, out);
    ghost var start := longer;
    for j := 0 to |stack|
      invariant longer + PrintList(VarBytes, stack[j..]) == start + PrintList(VarBytes, stack)
    {
      PrintStep(VarBytes, stack, j, longer);
      longer := WriteVarBytes(stack[j], longer);
    }
    Assoc(out, Varint.Encoding(|stack|), PrintList(VarBytes, stack));
  }

  /** One witness stack per input, in input order. */
  method WriteWitnesses(tx: Transaction, out: seq<u8>) returns (longer: seq<u8>)
    ensures longer == out + PrintList(StackBytes, Stacks(tx.inputs))
  {
    longer := out;
    ghost var stacks := Stacks(tx.inputs);
    for i := 0 to |tx.inputs|
      invariant longer + PrintList(StackBytes, stacks[i..]) == out + PrintList(StackBytes, stacks)
    {
      PrintStep(StackBytes, stacks, i, longer);
      longer := WriteStack(tx.inputs[i].stack, longer);
    }
  }

  method SerializeLegacy(tx: Transaction) returns (out: seq<u8>)
    ensures out == Wire(tx, Legacy)
  {
    hide LittleEndian, Counted;
    WireChain(tx, Legacy);
    out := LittleEndian(Unsigned(tx.version), 4);
    assert out + Marker(Legacy) == out;
    out := WriteInputs(tx, out);
    out := WriteOutputs(tx, out);
    assert out + Witnesses(tx, Legacy) == out;
    out := out + LittleEndian(tx.lockTime, 4);
  }

  method Serialize(tx: Transaction) returns (out: seq<u8>)
    ensures out == Serialized(tx)
  {
    if !HasWitness(tx) {
      out := SerializeLegacy(tx);
      return;
    }
    out := LittleEndian(Unsigned(tx.version), 4);
    out := out + [0x00];
    out := out + [0x01];
    assert out == LittleEndian(Unsigned(tx.version), 4) + Marker(Segwit(0x01));
    out := WriteInputs(tx, out);
    out := WriteOutputs(tx, out);
    out := WriteWitnesses(tx, out);
    out := out + LittleEndian(tx.lockTime, 4);
    WireChain(tx, Segwit(0x01));
  }

  /** The layout as the printers build it, field after field. */
  lemma WireChain(tx: Transaction, layout: Layout)
    ensures Wire(tx, layout) ==
            LittleEndian(Unsigned(tx.version), 4) + Marker(layout) + Counted(InputBytes, tx.inputs)
            + Counted(OutputBytes, tx.outputs) + Witnesses(tx, layout) + LittleEndian(tx.lockTime, 4)
  {
    var v, m, i := LittleEndian(Unsigned(tx.version), 4), Marker(layout), Counted(InputBytes, tx.inputs);
    var o, w, l := Counted(OutputBytes, tx.outputs), Witnesses(tx, layout), LittleEndian(tx.lockTime, 4);
    Assoc(v, m, i + (o + (w + l)));
    Assoc(v + m, i, o + (w + l));
    Assoc(v + m + i, o, w + l);
    Assoc(v + m + i + o, w, l);
  }

  // ---------------------------------------------------------------- the parser

  function TakeList<T>(take: seq<u8> -> Parsed<T>, s: seq<u8>, count: nat): (r: Parsed<seq<T>>)
    ensures r.Ok? ==> |r.value.0| == count
    decreases count
  {
    if count == 0 then Ok(([], s)) else
    var (item, rest) :- take(s);
    var (items, rest) :- TakeList(take, rest, count - 1);
    Ok(([item] + items, rest))
  }

  function TakeCounted<T>(take: seq<u8> -> Parsed<T>, s: seq<u8>): Parsed<Vec<T>> {
    var (count, rest) :- TakeVarint(s);
    var (items, rest) :- TakeList(take, rest, count);
    Ok((items, rest))
  }

  function TakeInput(s: seq<u8>): Parsed<TxIn> {
    var (txid, rest) :- TakeHash(s);
    var (vout, rest) :- TakeU32(rest);
    var (scriptSig, rest) :- TakeVarBytes(rest);
    var (sequence, rest) :- TakeU32(rest);
    Ok((TxIn(OutPoint(txid, vout), scriptSig, sequence, []), rest))
  }

  function TakeOutput(s: seq<u8>): Parsed<TxOut> {
    var (value, rest) :- TakeU64(s);
    var (scriptPubkey, rest) :- TakeVarBytes(rest);
    Ok((TxOut(value, scriptPubkey), rest))
  }

  function TakeStack(s: seq<u8>): Parsed<Vec<Vec<u8>>> {
    TakeCounted(TakeVarBytes, s)
  }

  function WithWitnesses(inputs: seq<TxIn>, stacks: seq<Vec<Vec<u8>>>): (r: seq<TxIn>)
    requires |stacks| == |inputs|
    ensures |r| == |inputs|
  {
    seq(|inputs|, i requires 0 <= i < |inputs| => inputs[i].(stack := stacks[i]))
  }

  /** Reads the marker if there is one: a zero input count announces the SegWit layout. */
  function TakeLayout(s: seq<u8>): Parsed<(Layout, u64)> {
    var (count, rest) :- TakeVarint(s);
    if count != 0 then Ok(((Legacy, count), rest)) else
    var (flag, rest) :- TakeBytes(rest, 1);
    var (count, rest) :- TakeVarint(rest);
    Ok(((Segwit(flag[0]), count), rest))
  }

  function TakeWitnesses(s: seq<u8>, layout: Layout, inputs: Vec<TxIn>): (r: Parsed<Vec<TxIn>>)
    ensures r.Ok? ==> |r.value.0| == |inputs|
  {
    if layout.Legacy? then Ok((inputs, s)) else
    var (stacks, rest) :- TakeList(TakeStack, s, |inputs|);
    Ok((WithWitnesses(inputs, stacks), rest))
  }

  /** A transaction from the front of `s`, the layout it was in, and the bytes left over. */
  function TakeTransaction(s: seq<u8>): Parsed<(Transaction, Layout)> {
    var (version, rest) :- TakeI32(s);
    var (head, rest) :- TakeLayout(rest);
    var (inputs, rest) :- TakeList(TakeInput, rest, head.1);
    var (outputs, rest) :- TakeCounted(TakeOutput, rest);
    var (inputs, rest) :- TakeWitnesses(rest, head.0, inputs);
    var (lockTime, rest) :- TakeU32(rest);
    Ok(((Transaction(version, inputs, outputs, lockTime), head.0), rest))
  }

  /** What parsing `bytes` yields; unread trailing bytes and the flag are dropped. */
  function Deserialized(bytes: seq<u8>): Result<Transaction, ReadError> {
    match TakeTransaction(bytes)
    case Ok((parsed, _)) => Ok(parsed.0)
    case Err(error) => Err(error)
  }

  /** The parser's loop state: what remains to be taken, and how the finished list is assembled. */
  ghost predicate Resumes<T(!new)>(take: seq<u8> -> Parsed<T>, s: seq<u8>, count: nat, done: seq<T>, unread: seq<u8>)
    requires |done| <= count
  {
    TakeList(take, s, count) == Prepend(done, TakeList(take, unread, count - |done|))
  }

  function Prepend<T>(done: seq<T>, more: Parsed<seq<T>>): Parsed<seq<T>> {
    var (items, rest) :- more;
    Ok((done + items, rest))
  }

  lemma ResumeStart<T(!new)>(take: seq<u8> -> Parsed<T>, s: seq<u8>, count: nat)
    ensures Resumes(take, s, count, [], s)
  {
    var all := TakeList(take, s, count);
    if all.Ok? {
      assert [] + all.value.0 == all.value.0;
    }
  }

  lemma ResumeStep<T(!new)>(take: seq<u8> -> Parsed<T>, s: seq<u8>, count: nat, done: seq<T>, unread: seq<u8>)
    requires |done| < count && Resumes(take, s, count, done, unread)
    ensures take(unread).Err? ==> TakeList(take, s, count) == Err(take(unread).error)
    ensures take(unread).Ok? ==> var (item, rest) := take(unread).value; Resumes(take, s, count, done + [item], rest)
  {
    if take(unread).Ok? {
      var (item, rest) := take(unread).value;
      var more := TakeList(take, rest, count - |done| - 1);
      if more.Ok? {
        Assoc(done, [item], more.value.0);
      }
    }
  }

  lemma ResumeEnd<T(!new)>(take: seq<u8> -> Parsed<T>, s: seq<u8>, count: nat, done: seq<T>, unread: seq<u8>)
    requires |done| == count && Resumes(take, s, count, done, unread)
    ensures TakeList(take, s, count) == Ok((done, unread))
  {
    assert done + [] == done;
  }

  method ReadInput(reader: Reader) returns (r: Result<TxIn, ReadError>)
    requires reader.Valid()
    modifies reader
    ensures reader.Valid() && Agrees(r, TakeInput(old(reader.Unread())), reader.Unread())
  {
    var txid :- reader.ReadHash();
    var vout :- reader.ReadU32();
    var scriptSig :- reader.ReadVarBytes();
    var sequence :- reader.ReadU32();
    r := Ok(TxIn(OutPoint(txid, vout), scriptSig, sequence, []));
  }

  method ReadInputs(reader: Reader, count: u64) returns (r: Result<Vec<TxIn>, ReadError>)
    requires reader.Valid()
    modifies reader
    ensures reader.Valid() && Agrees(r, TakeList(TakeInput, old(reader.Unread()), count), reader.Unread())
  {
    var inputs: seq<TxIn> := [];
    ResumeStart(TakeInput, reader.Unread(), count);
    while |inputs| < count
      invariant reader.Valid() && |inputs| <= count
      invariant Resumes(TakeInput, old(reader.Unread()), count, inputs, reader.Unread())
    {
      ResumeStep(TakeInput, old(reader.Unread()), count, inputs, reader.Unread());
      var input :- ReadInput(reader);
      inputs := inputs + [input];
    }
    ResumeEnd(TakeInput, old(reader.Unread()), count, inputs, reader.Unread());
    r := Ok(inputs);
  }

  method ReadOutputs(reader: Reader, count: u64) returns (r: Result<Vec<TxOut>, ReadError>)
    requires reader.Valid()
    modifies reader
    ensures reader.Valid() && Agrees(r, TakeList(TakeOutput, old(reader.Unread()), count), reader.Unread())
  {
    var outputs: seq<TxOut> := [];
    ResumeStart(TakeOutput, reader.Unread(), count);
    while |outputs| < count
      invariant reader.Valid() && |outputs| <= count
      invariant Resumes(TakeOutput, old(reader.Unread()), count, outputs, reader.Unread())
    {
      ResumeStep(TakeOutput, old(reader.Unread()), count, outputs, reader.Unread());
      var value :- reader.ReadU64();
      var scriptPubkey :- reader.ReadVarBytes();
      outputs := outputs + [TxOut(value, scriptPubkey)];
    }
    ResumeEnd(TakeOutput, old(reader.Unread()), count, outputs, reader.Unread());
    r := Ok(outputs);
  }

  method ReadStack(reader: Reader) returns (r: Result<Vec<Vec<u8>>, ReadError>)
    requires reader.Valid()
    modifies reader
    ensures reader.Valid() && Agrees(r, TakeStack(old(reader.Unread())), reader.Unread())
  {
    var count :- reader.ReadVarint();
    ghost var start := reader.Unread();
    var items: seq<Vec<u8>> := [];
    ResumeStart(TakeVarBytes, start, count);
    while |items| < count
      invariant reader.Valid() && |items| <= count
      invariant Resumes(TakeVarBytes, start, count, items, reader.Unread())
    {
      ResumeStep(TakeVarBytes, start, count, items, reader.Unread());
      var item :- reader.ReadVarBytes();
      items := items + [item];
    }
    ResumeEnd(TakeVarBytes, start, count, items, reader.Unread());
    r := Ok(items);
  }

  method ReadWitnesses(reader: Reader, inputs: Vec<TxIn>, ghost layout: Layout) returns (r: Result<Vec<TxIn>, ReadError>)
    requires reader.Valid() && layout.Segwit?
    modifies reader
    ensures reader.Valid() && Agrees(r, TakeWitnesses(old(reader.Unread()), layout, inputs), reader.Unread())
  {
    var filled: seq<TxIn> := inputs;
    ghost var stacks: seq<Vec<Vec<u8>>> := [];
    ResumeStart(TakeStack, reader.Unread(), |inputs|);
    for i := 0 to |inputs|
      invariant reader.Valid() && |filled| == |inputs| && |stacks| == i
      invariant Resumes(TakeStack, old(reader.Unread()), |inputs|, stacks, reader.Unread())
      invariant forall j :: 0 <= j < i ==> filled[j] == inputs[j].(stack := stacks[j])
      invariant forall j :: i <= j < |inputs| ==> filled[j] == inputs[j]
    {
      ResumeStep(TakeStack, old(reader.Unread()), |inputs|, stacks, reader.Unread());
      var stack :- ReadStack(reader);
      filled := filled[i := filled[i].(stack := stack)];
      stacks := stacks + [stack];
    }
    ResumeEnd(TakeStack, old(reader.Unread()), |inputs|, stacks, reader.Unread());
    assert filled == WithWitnesses(inputs, stacks);
    r := Ok(filled);
  }

  /** Parses a transaction, with or without witness data. */
  method Deserialize(bytes: seq<u8>) returns (r: Result<Transaction, ReadError>)
    ensures r == Deserialized(bytes)
  {
    var reader := new Reader(bytes);
    var version :- reader.ReadI32();
    var inputCount :- reader.ReadVarint();
    var segwit := inputCount == 0;
    ghost var layout := Legacy;
    if segwit {
      var flag :- reader.ReadBytes(1);
      layout := Segwit(flag[0]);
      inputCount :- reader.ReadVarint();
    }
    var inputs :- ReadInputs(reader, inputCount);
    var outputCount :- reader.ReadVarint();
    var outputs :- ReadOutputs(reader, outputCount);
    if segwit {
      inputs :- ReadWitnesses(reader, inputs, layout);
    }
    var lockTime :- reader.ReadU32();
    r := Ok(Transaction(version, inputs, outputs, lockTime));
  }
}
