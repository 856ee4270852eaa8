/** What the transaction printer and parser promise each other, over every byte string. */
module TransactionCodec {
  import opened Bytes
  import opened Reader
  import opened Transactions
  import Varint

  /** `take` undoes `encode` on every listed item, whatever bytes follow. */
  ghost predicate Undoes<T(!new)>(take: seq<u8> -> Parsed<T>, encode: T -> seq<u8>, items: seq<T>) {
    forall i, rest :: 0 <= i < |items| ==> take(encode(items[i]) + rest) == Ok((items[i], rest))
  }

  /** `take` accepts only what `encode` writes. */
  ghost predicate AcceptsOnly<T(!new)>(take: seq<u8> -> Parsed<T>, encode: T -> seq<u8>) {
    forall s :: take(s).Ok? ==> s == encode(take(s).value.0) + take(s).value.1
  }

  lemma {:induction false} ListInverse<T(!new)>(take: seq<u8> -> Parsed<T>, encode: T -> seq<u8>, items: seq<T>, rest: seq<u8>)
    requires Undoes(take, encode, items)
    ensures TakeList(take, PrintList(encode, items) + rest, |items|) == Ok((items, rest))
  {
    if items == [] {
      assert PrintList(encode, items) + rest == rest;
    } else {
      var tail := PrintList(encode, items[1..]) + rest;
      Assoc(encode(items[0]), PrintList(encode, items[1..]), rest);
      assert take(encode(items[0]) + tail) == Ok((items[0], tail));
      assert Undoes(take, encode, items[1..]) by {
        forall i, r | 0 <= i < |items[1..]|
          ensures take(encode(items[1..][i]) + r) == Ok((items[1..][i], r))
        {
          assert items[1..][i] == items[i + 1];
        }
      }
      ListInverse(take, encode, items[1..], rest);
      assert [items[0]] + items[1..] == items;
    }
  }

  lemma {:induction false} ListSound<T(!new)>(take: seq<u8> -> Parsed<T>, encode: T -> seq<u8>, s: seq<u8>, count: nat)
    requires AcceptsOnly(take, encode) && TakeList(take, s, count).Ok?
    ensures var (items, rest) := TakeList(take, s, count).value; s == PrintList(encode, items) + rest
    decreases count
  {
    if count == 0 {
      assert s == [] + s;
    } else {
      var (item, tail) := take(s).value;
      ListSound(take, encode, tail, count - 1);
      var (items, rest) := TakeList(take, tail, count - 1).value;
      assert ([item] + items)[1..] == items;
      Assoc(encode(item), PrintList(encode, items), rest);
    }
  }

  lemma CountedInverse<T(!new)>(take: seq<u8> -> Parsed<T>, encode: T -> seq<u8>, items: Vec<T>, rest: seq<u8>)
    requires Undoes(take, encode, items)
    ensures TakeCounted(take, Counted(encode, items) + rest) == Ok((items, rest))
  {
    Assoc(Varint.Encoding(|items|), PrintList(encode, items), rest);
    TakeVarintInverse(|items|, PrintList(encode, items) + rest);
    ListInverse(take, encode, items, rest);
  }

  lemma CountedSound<T(!new)>(take: seq<u8> -> Parsed<T>, encode: T -> seq<u8>, s: seq<u8>)
    requires AcceptsOnly(take, encode) && TakeCounted(take, s).Ok?
    ensures var (items, rest) := TakeCounted(take, s).value; s == Counted(encode, items) + rest
  {
    TakeVarintSound(s);
    var (count, tail) := TakeVarint(s).value;
    ListSound(take, encode, tail, count);
    var (items, rest) := TakeList(take, tail, count).value;
    Assoc(Varint.Encoding(count), PrintList(encode, items), rest);
  }

  lemma VarBytesUndone(items: seq<Vec<u8>>)
    ensures Undoes(TakeVarBytes, VarBytes, items)
  {
    forall i, rest | 0 <= i < |items|
      ensures TakeVarBytes(VarBytes(items[i]) + rest) == Ok((items[i], rest))
    {
      TakeVarBytesInverse(items[i], rest);
    }
  }

  lemma StacksUndone(stacks: seq<Vec<Vec<u8>>>)
    ensures Undoes(TakeStack, StackBytes, stacks)
  {
    forall i, rest | 0 <= i < |stacks|
      ensures TakeStack(StackBytes(stacks[i]) + rest) == Ok((stacks[i], rest))
    {
      VarBytesUndone(stacks[i]);
      CountedInverse(TakeVarBytes, VarBytes, stacks[i], rest);
    }
  }

  lemma StacksAccepted()
    ensures AcceptsOnly(TakeStack, StackBytes)
  {
    assert AcceptsOnly(TakeVarBytes, VarBytes) by {
      forall s | TakeVarBytes(s).Ok? ensures s == VarBytes(TakeVarBytes(s).value.0) + TakeVarBytes(s).value.1 {
        TakeVarBytesSound(s);
      }
    }
    forall s | TakeStack(s).Ok? ensures s == StackBytes(TakeStack(s).value.0) + TakeStack(s).value.1 {
      CountedSound(TakeVarBytes, VarBytes, s);
    }
  }

  /** The inputs as the input section of the wire records them: without their witness stacks. */
  function Bare(inputs: seq<TxIn>): (r: seq<TxIn>)
    ensures |r| == |inputs|
  {
    seq(|inputs|, i requires 0 <= i < |inputs| => inputs[i].(stack := []))
  }

  lemma {:induction false} BareBytes(inputs: seq<TxIn>)
    ensures PrintList(InputBytes, Bare(inputs)) == PrintList(InputBytes, inputs)
  {
    if inputs != [] {
      assert Bare(inputs)[1..] == Bare(inputs[1..]);
      BareBytes(inputs[1..]);
    }
  }

  lemma InputInverse(input: TxIn, rest: seq<u8>)
    ensures TakeInput(InputBytes(input) + rest) == Ok((input.(stack := []), rest))
  {
    var txid, vout := input.previousOutput.txid, LittleEndian(input.previousOutput.vout, 4);
    var script, sequence := VarBytes(input.scriptSig), LittleEndian(input.sequence, 4);
    Assoc(txid, vout + (script + sequence), rest);
    Assoc(vout, script + sequence, rest);
    Assoc(script, sequence, rest);
    TakeHashInverse(txid, vout + (script + (sequence + rest)));
    TakeU32Inverse(input.previousOutput.vout, script + (sequence + rest));
    TakeVarBytesInverse(input.scriptSig, sequence + rest);
    TakeU32Inverse(input.sequence, rest);
  }

  lemma InputSound(s: seq<u8>)
    requires TakeInput(s).Ok?
    ensures var (input, rest) := TakeInput(s).value; input.stack == [] && s == InputBytes(input) + rest
  {
    var (input, rest) := TakeInput(s).value;
    var txid, vout := input.previousOutput.txid, LittleEndian(input.previousOutput.vout, 4);
    var script, sequence := VarBytes(input.scriptSig), LittleEndian(input.sequence, 4);
    var s1 := TakeHash(s).value.1;
    var s2 := TakeU32(s1).value.1;
    var s3 := TakeVarBytes(s2).value.1;
    TakeU32Sound(s1);
    TakeVarBytesSound(s2);
    TakeU32Sound(s3);
    assert s == txid + s1;
    Assoc(txid, vout + (script + sequence), rest);
    Assoc(vout, script + sequence, rest);
    Assoc(script, sequence, rest);
  }

  lemma OutputInverse(output: TxOut, rest: seq<u8>)
    ensures TakeOutput(OutputBytes(output) + rest) == Ok((output, rest))
  {
    Assoc(LittleEndian(output.value, 8), VarBytes(output.scriptPubkey), rest);
    TakeU64Inverse(output.value, VarBytes(output.scriptPubkey) + rest);
    TakeVarBytesInverse(output.scriptPubkey, rest);
  }

  lemma OutputSound(s: seq<u8>)
    requires TakeOutput(s).Ok?
    ensures var (output, rest) := TakeOutput(s).value; s == OutputBytes(output) + rest
  {
    TakeU64Sound(s);
    var s1 := TakeU64(s).value.1;
    TakeVarBytesSound(s1);
    var (output, rest) := TakeOutput(s).value;
    Assoc(LittleEndian(output.value, 8), VarBytes(output.scriptPubkey), rest);
  }

  lemma InputListInverse(inputs: seq<TxIn>, rest: seq<u8>)
    ensures TakeList(TakeInput, PrintList(InputBytes, inputs) + rest, |inputs|) == Ok((Bare(inputs), rest))
  {
    BareBytes(inputs);
    forall i, tail | 0 <= i < |Bare(inputs)|
      ensures TakeInput(InputBytes(Bare(inputs)[i]) + tail) == Ok((Bare(inputs)[i], tail))
    {
      InputInverse(Bare(inputs)[i], tail);
    }
    ListInverse(TakeInput, InputBytes, Bare(inputs), rest);
  }

  lemma {:induction false} InputListSound(s: seq<u8>, count: nat)
    requires TakeList(TakeInput, s, count).Ok?
    ensures var (inputs, rest) := TakeList(TakeInput, s, count).value;
            inputs == Bare(inputs) && s == PrintList(InputBytes, inputs) + rest
    decreases count
  {
    if count == 0 {
      assert s == [] + s;
    } else {
      var (input, tail) := TakeInput(s).value;
      InputSound(s);
      InputListSound(tail, count - 1);
      var (inputs, rest) := TakeList(TakeInput, tail, count - 1).value;
      assert ([input] + inputs)[1..] == inputs;
      Assoc(InputBytes(input), PrintList(InputBytes, inputs), rest);
    }
  }

  lemma OutputsInverse(outputs: Vec<TxOut>, rest: seq<u8>)
    ensures TakeCounted(TakeOutput, Counted(OutputBytes, outputs) + rest) == Ok((outputs, rest))
  {
    forall i, tail | 0 <= i < |outputs|
      ensures TakeOutput(OutputBytes(outputs[i]) + tail) == Ok((outputs[i], tail))
    {
      OutputInverse(outputs[i], tail);
    }
    CountedInverse(TakeOutput, OutputBytes, outputs, rest);
  }

  lemma OutputsSound(s: seq<u8>)
    requires TakeCounted(TakeOutput, s).Ok?
    ensures var (outputs, rest) := TakeCounted(TakeOutput, s).value; s == Counted(OutputBytes, outputs) + rest
  {
    forall p | TakeOutput(p).Ok? ensures p == OutputBytes(TakeOutput(p).value.0) + TakeOutput(p).value.1 {
      OutputSound(p);
    }
    CountedSound(TakeOutput, OutputBytes, s);
  }

  /** The layouts a transaction can be written in so that the parser reads the same transaction back. */
  predicate Readable(tx: Transaction, layout: Layout) {
    layout.Legacy? ==> tx.inputs != [] && !HasWitness(tx)
  }

  /** The marker and the input count, followed by `rest`. */
  lemma LayoutInverse(tx: Transaction, layout: Layout, rest: seq<u8>)
    requires Readable(tx, layout)
    ensures TakeLayout(Marker(layout) + (Counted(InputBytes, tx.inputs) + rest))
            == Ok(((layout, |tx.inputs|), PrintList(InputBytes, tx.inputs) + rest))
  {
    hide PrintList, Varint.Encoding, TakeVarint, HasWitness;
    VarintOfZero();
    var body := PrintList(InputBytes, tx.inputs) + rest;
    Assoc(Varint.Encoding(|tx.inputs|), PrintList(InputBytes, tx.inputs), rest);
    TakeVarintInverse(|tx.inputs|, body);
    match layout
    case Legacy =>
      assert [] + (Counted(InputBytes, tx.inputs) + rest) == Counted(InputBytes, tx.inputs) + rest;
    case Segwit(flag) =>
      var after := Varint.Encoding(|tx.inputs|) + body;
      assert Marker(layout) + after == Varint.Encoding(0) + ([flag] + after);
      TakeVarintInverse(0, [flag] + after);
      assert ([flag] + after)[..1] == [flag] && ([flag] + after)[1..] == after;
  }

  lemma VarintOfZero()
    ensures Varint.Encoding(0) == [0x00]
  {
  }

  lemma WitnessesInverse(tx: Transaction, layout: Layout, rest: seq<u8>)
    requires Readable(tx, layout)
    ensures TakeWitnesses(Witnesses(tx, layout) + rest, layout, Bare(tx.inputs)) == Ok((tx.inputs, rest))
  {
    match layout
    case Legacy =>
      assert Bare(tx.inputs) == tx.inputs;
      assert [] + rest == rest;
    case Segwit(_) =>
      StacksUndone(Stacks(tx.inputs));
      ListInverse(TakeStack, StackBytes, Stacks(tx.inputs), rest);
      assert WithWitnesses(Bare(tx.inputs), Stacks(tx.inputs)) == tx.inputs;
  }

  /** Parsing undoes printing, in either layout and whatever follows. */
  lemma WireInverse(tx: Transaction, layout: Layout, rest: seq<u8>)
    requires Readable(tx, layout)
    ensures TakeTransaction(Wire(tx, layout) + rest) == Ok(((tx, layout), rest))
  {
    var version, marker, inputs := LittleEndian(Unsigned(tx.version), 4), Marker(layout), Counted(InputBytes, tx.inputs);
    var outputs, stacks, lock := Counted(OutputBytes, tx.outputs), Witnesses(tx, layout), LittleEndian(tx.lockTime, 4);
    Assoc(version, marker + (inputs + (outputs + (stacks + lock))), rest);
    Assoc(marker, inputs + (outputs + (stacks + lock)), rest);
    Assoc(inputs, outputs + (stacks + lock), rest);
    Assoc(outputs, stacks + lock, rest);
    Assoc(stacks, lock, rest);
    TakeI32Inverse(tx.version, marker + (inputs + (outputs + (stacks + (lock + rest)))));
    LayoutInverse(tx, layout, outputs + (stacks + (lock + rest)));
    InputListInverse(tx.inputs, outputs + (stacks + (lock + rest)));
    OutputsInverse(tx.outputs, stacks + (lock + rest));
    WitnessesInverse(tx, layout, lock + rest);
    TakeU32Inverse(tx.lockTime, rest);
  }

  lemma LayoutSound(s: seq<u8>)
    requires TakeLayout(s).Ok?
    ensures var (head, rest) := TakeLayout(s).value;
            s == Marker(head.0) + (Varint.Encoding(head.1) + rest) && (head.0.Legacy? ==> head.1 != 0)
  {
    TakeVarintSound(s);
    var (count, s1) := TakeVarint(s).value;
    if count == 0 {
      var (flag, s2) := TakeBytes(s1, 1).value;
      TakeVarintSound(s2);
      assert s1 == flag + s2;
      assert s == [0x00, flag[0]] + s2;
    } else {
      assert [] + s == s;
    }
  }

  lemma WitnessesSound(s: seq<u8>, layout: Layout, inputs: Vec<TxIn>)
    requires inputs == Bare(inputs) && TakeWitnesses(s, layout, inputs).Ok?
    ensures var (filled, rest) := TakeWitnesses(s, layout, inputs).value;
            && Bare(filled) == inputs
            && (layout.Legacy? ==> filled == inputs)
            && s == (if layout.Legacy? then [] else PrintList(StackBytes, Stacks(filled))) + rest
  {
    match layout
    case Legacy =>
      assert [] + s == s;
    case Segwit(_) =>
      StacksAccepted();
      ListSound(TakeStack, StackBytes, s, |inputs|);
      var (stacks, rest) := TakeList(TakeStack, s, |inputs|).value;
      var filled := WithWitnesses(inputs, stacks);
      assert Stacks(filled) == stacks;
      assert Bare(filled) == inputs by {
        assert forall i :: 0 <= i < |inputs| ==> Bare(filled)[i] == Bare(inputs)[i];
      }
  }

  lemma SixFields(a: seq<u8>, b: seq<u8>, c: seq<u8>, d: seq<u8>, e: seq<u8>, f: seq<u8>, rest: seq<u8>)
    ensures a + (b + (c + (d + (e + f)))) + rest == a + (b + (c + (d + (e + (f + rest)))))
  {
    Assoc(a, b + (c + (d + (e + f))), rest);
    Assoc(b, c + (d + (e + f)), rest);
    Assoc(c, d + (e + f), rest);
    Assoc(d, e + f, rest);
    Assoc(e, f, rest);
  }

  /** Whatever the parser accepts is exactly what the printer writes for the transaction it returns. */
  lemma WireSound(s: seq<u8>)
    requires TakeTransaction(s).Ok?
    ensures var ((tx, layout), rest) := TakeTransaction(s).value;
            Readable(tx, layout) && s == Wire(tx, layout) + rest
  {
    var ((tx, layout), rest) := TakeTransaction(s).value;
    TakeU32Sound(s);
    var s1 := TakeI32(s).value.1;
    TakeI32Sound(s);
    LayoutSound(s1);
    var (head, s2) := TakeLayout(s1).value;
    InputListSound(s2, head.1);
    var (bare, s3) := TakeList(TakeInput, s2, head.1).value;
    OutputsSound(s3);
    var s4 := TakeCounted(TakeOutput, s3).value.1;
    WitnessesSound(s4, layout, bare);
    var s5 := TakeWitnesses(s4, layout, bare).value.1;
    TakeU32Sound(s5);
    BareBytes(tx.inputs);
    var version, marker, inputs := LittleEndian(Unsigned(tx.version), 4), Marker(layout), Counted(InputBytes, tx.inputs);
    var outputs, stacks, lock := Counted(OutputBytes, tx.outputs), Witnesses(tx, layout), LittleEndian(tx.lockTime, 4);
    Assoc(Varint.Encoding(head.1), PrintList(InputBytes, tx.inputs), s3);
    SixFields(version, marker, inputs, outputs, stacks, lock, rest);
    if layout.Legacy? {
      assert tx.inputs == Bare(tx.inputs);
      assert forall i :: 0 <= i < |tx.inputs| ==> Bare(tx.inputs)[i].stack == [];
    }
  }

  // ---------------------------------------------------------------- main results

  /** Round trip, whatever bytes follow. */
  lemma RoundTrip(tx: Transaction, rest: seq<u8>)
    requires tx.inputs != []
    ensures Deserialized(Serialized(tx) + rest) == Ok(tx)
  {
    WireInverse(tx, if HasWitness(tx) then Segwit(0x01) else Legacy, rest);
  }

  /** Every read of the parser is stable under appending bytes. */
  lemma AppendStable(s: seq<u8>, more: seq<u8>)
    requires TakeTransaction(s).Ok?
    ensures var (parsed, rest) := TakeTransaction(s).value; TakeTransaction(s + more) == Ok((parsed, rest + more))
  {
    WireSound(s);
    var ((tx, layout), rest) := TakeTransaction(s).value;
    Assoc(Wire(tx, layout), rest, more);
    WireInverse(tx, layout, rest + more);
  }

  /** Prefix-freeness: no strict prefix of a serialised transaction parses. */
  lemma StrictPrefixFails(tx: Transaction, prefix: seq<u8>)
    requires tx.inputs != [] && prefix < Serialized(tx)
    ensures Deserialized(prefix).Err?
  {
    if TakeTransaction(prefix).Ok? {
      var more := Serialized(tx)[|prefix|..];
      assert prefix + more == Serialized(tx);
      AppendStable(prefix, more);
      assert Serialized(tx) + [] == Serialized(tx);
      WireInverse(tx, if HasWitness(tx) then Segwit(0x01) else Legacy, []);
      assert false;
    }
  }

  /** Input that is consumed whole re-serialises to itself exactly when it is legacy, or has flag 1 and a witness. */
  lemma ReserializesIff(bytes: seq<u8>)
    requires TakeTransaction(bytes).Ok? && TakeTransaction(bytes).value.1 == []
    ensures var (tx, layout) := TakeTransaction(bytes).value.0;
            Serialized(tx) == bytes <==> layout.Legacy? || (layout.flag == 0x01 && HasWitness(tx))
  {
    WireSound(bytes);
    var (tx, layout) := TakeTransaction(bytes).value.0;
    assert bytes == Wire(tx, layout) + [] == Wire(tx, layout);
    if layout.Segwit? {
      if HasWitness(tx) {
        assert Wire(tx, layout)[4..][1] == layout.flag;
        assert Wire(tx, Segwit(0x01))[4..][1] == 0x01;
      } else {
        assert |Wire(tx, layout)| >= |Wire(tx, Legacy)| + 2;
      }
    }
  }

  /** Without inputs the zero count reads as the marker, so the round trip holds exactly when there is an input. */
  lemma RoundTripIff(tx: Transaction)
    ensures Deserialized(Serialized(tx)) == Ok(tx) <==> tx.inputs != []
  {
    var bytes := Serialized(tx);
    if tx.inputs != [] {
      RoundTrip(tx, []);
      assert bytes + [] == bytes;
    } else if Deserialized(bytes) == Ok(tx) {
      WireSound(bytes);
      assert false;
    }
  }

  // ---------------------------------------------------------------- the layout, byte for byte

  /** The SegWit form is the legacy form with the marker and flag after the version and the witnesses before the lock time. */
  lemma SegwitInsertsTwice(tx: Transaction, flag: u8)
    ensures var legacy := Wire(tx, Legacy);
            && |legacy| >= 8
            && Wire(tx, Segwit(flag))
               == legacy[..4] + [0x00, flag] + legacy[4..|legacy| - 4] + PrintList(StackBytes, Stacks(tx.inputs)) + legacy[|legacy| - 4..]
  {
    hide LittleEndian, Counted, PrintList;
    var v, i, o, l := LittleEndian(Unsigned(tx.version), 4), Counted(InputBytes, tx.inputs),
                      Counted(OutputBytes, tx.outputs), LittleEndian(tx.lockTime, 4);
    var legacy := Wire(tx, Legacy);
    assert legacy == v + (i + o) + l;
    assert legacy[..4] == v && legacy[4..|legacy| - 4] == i + o && legacy[|legacy| - 4..] == l;
    WireChain(tx, Segwit(flag));
    Assoc(v + [0x00, flag], i, o);
  }

  /** Neither id depends on how a transaction is serialised elsewhere, and the legacy form ignores every witness. */
  lemma LegacyIgnoresWitness(tx: Transaction)
    ensures Wire(tx, Legacy) == Wire(tx.(inputs := Bare(tx.inputs)), Legacy)
  {
    BareBytes(tx.inputs);
  }

  /** A transaction with one input, one output and a witness, field by field. */
  lemma OneInOneOut(tx: Transaction)
    requires |tx.inputs| == 1 && |tx.outputs| == 1 && tx.inputs[0].stack != []
    ensures Serialized(tx)
            == LittleEndian(Unsigned(tx.version), 4) + [0x00, 0x01] + ([0x01] + InputBytes(tx.inputs[0]))
               + ([0x01] + OutputBytes(tx.outputs[0])) + StackBytes(tx.inputs[0].stack) + LittleEndian(tx.lockTime, 4)
  {
    hide LittleEndian, PrintList, InputBytes, OutputBytes, StackBytes;
    var input, output := tx.inputs[0], tx.outputs[0];
    assert tx.inputs == [input] && tx.outputs == [output] && Stacks(tx.inputs) == [input.stack];
    PrintOne(InputBytes, input);
    PrintOne(OutputBytes, output);
    PrintOne(StackBytes, input.stack);
    WireChain(tx, Segwit(0x01));
  }

  /** One such transaction with every field different, written out. */
  lemma KnownTransaction(txid: Hash, tx: Transaction)
    requires tx == Transaction(0x7C7B_7A79, [TxIn(OutPoint(txid, 0x0403_0201), [0x51], 0x0807_0605, [[0xAA], [0xBB, 0xCC]])],
                               [TxOut(0x1817_1615_1413_1211, [0x6A])], 0x2F2E_2D2C)
    ensures Serialized(tx)
            == [0x79, 0x7A, 0x7B, 0x7C] + [0x00, 0x01]
               + ([0x01] + (txid + [0x01, 0x02, 0x03, 0x04] + [0x01, 0x51] + [0x05, 0x06, 0x07, 0x08]))
               + ([0x01] + ([0x11, 0x12, 0x13, 0x14, 0x15, 0x16, 0x17, 0x18] + [0x01, 0x6A]))
               + ([0x02] + [0x01, 0xAA] + [0x02, 0xBB, 0xCC])
               + [0x2C, 0x2D, 0x2E, 0x2F]
  {
    hide LittleEndian, PrintList, InputBytes, OutputBytes, StackBytes, Serialized;
    assert Unsigned(0x7C7B_7A79) == 0x7C7B_7A79;
    KnownIntegers();
    KnownInput(txid);
    KnownOutput();
    KnownStack();
    OneInOneOut(tx);
  }

  lemma KnownInput(txid: Hash)
    ensures InputBytes(TxIn(OutPoint(txid, 0x0403_0201), [0x51], 0x0807_0605, [[0xAA], [0xBB, 0xCC]]))
            == txid + [0x01, 0x02, 0x03, 0x04] + [0x01, 0x51] + [0x05, 0x06, 0x07, 0x08]
  {
    hide LittleEndian;
    KnownIntegers();
    Assoc(txid + [0x01, 0x02, 0x03, 0x04], [0x01, 0x51], [0x05, 0x06, 0x07, 0x08]);
  }

  lemma KnownOutput()
    ensures OutputBytes(TxOut(0x1817_1615_1413_1211, [0x6A]))
            == [0x11, 0x12, 0x13, 0x14, 0x15, 0x16, 0x17, 0x18] + [0x01, 0x6A]
  {
    hide LittleEndian;
    KnownIntegers();
  }

  lemma KnownStack()
    ensures StackBytes([[0xAA], [0xBB, 0xCC]]) == [0x02] + [0x01, 0xAA] + [0x02, 0xBB, 0xCC]
  {
    var first: Vec<u8>, second: Vec<u8> := [0xAA], [0xBB, 0xCC];
    assert VarBytes(first) == [0x01, 0xAA] && VarBytes(second) == [0x02, 0xBB, 0xCC];
    PrintOne(VarBytes, second);
    assert [first, second][1..] == [second];
    assert PrintList(VarBytes, [first, second]) == VarBytes(first) + PrintList(VarBytes, [second]);
  }

  lemma PrintOne<T>(encode: T -> seq<u8>, item: T)
    ensures PrintList(encode, [item]) == encode(item)
  {
  }

  lemma KnownIntegers()
    ensures LittleEndian(0x7C7B_7A79, 4) == [0x79, 0x7A, 0x7B, 0x7C] && LittleEndian(0x0403_0201, 4) == [0x01, 0x02, 0x03, 0x04]
    ensures LittleEndian(0x0807_0605, 4) == [0x05, 0x06, 0x07, 0x08] && LittleEndian(0x2F2E_2D2C, 4) == [0x2C, 0x2D, 0x2E, 0x2F]
    ensures LittleEndian(0x1817_1615_1413_1211, 8) == [0x11, 0x12, 0x13, 0x14, 0x15, 0x16, 0x17, 0x18]
  {
    hide LittleEndian, FromLittleEndian;
    FourBytes(0x79, 0x7A, 0x7B, 0x7C);
    FourBytes(0x01, 0x02, 0x03, 0x04);
    FourBytes(0x05, 0x06, 0x07, 0x08);
    FourBytes(0x2C, 0x2D, 0x2E, 0x2F);
    FourBytes(0x15, 0x16, 0x17, 0x18);
    Pow256Values();
    LittleEndianDecodes(0x1817_1615, 4);
    EightBytes(0x11, 0x12, 0x13, 0x14, [0x15, 0x16, 0x17, 0x18]);
    assert [0x11, 0x12, 0x13, 0x14] + [0x15, 0x16, 0x17, 0x18] == [0x11 as u8, 0x12, 0x13, 0x14, 0x15, 0x16, 0x17, 0x18];
  }
}
