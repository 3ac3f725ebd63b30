/** Where everything is in the bytes that are hashed (src/transaction.rs, src/block.rs): fields by position. */
module TxLayout {
  import Arithmetic
  import opened Types
  import opened Endian
  import opened TxCodec

  /** `width` bytes at position `at` hold this number, the least significant first. */
  ghost predicate Number(bytes: Bytes, at: nat, width: nat, n: nat) {
    at + width <= |bytes| && FromLe(bytes[at..at + width]) == n
  }

  /** The 32 bytes at position `at` are the digest, its most significant byte first. */
  ghost predicate DigestAt(bytes: Bytes, at: nat, digest: Digest) {
    at + 32 <= |bytes| &&
      var field := bytes[at..at + 32];
      forall i :: 0 <= i < 32 ==> field[i] == Arithmetic.Quot(digest, Pow256(31 - i)) % 256
  }

  /** At position `at` are the length of a script, as far as 32 bits go, and the script. */
  ghost predicate ScriptAt(bytes: Bytes, at: nat, script: Bytes) {
    && Number(bytes, at, 4, |script| % 0x1_0000_0000)
    && at + 4 + |script| <= |bytes| && bytes[at + 4..at + 4 + |script|] == script
  }

  ghost predicate InputAt(bytes: Bytes, at: nat, input: TxInput) {
    && DigestAt(bytes, at, input.previousOutput.txid)
    && Number(bytes, at + 32, 4, input.previousOutput.vout)
    && ScriptAt(bytes, at + 36, input.scriptSig)
    && Number(bytes, at + 40 + |input.scriptSig|, 4, input.sequence)
  }

  ghost predicate OutputAt(bytes: Bytes, at: nat, output: TxOutput) {
    && Number(bytes, at, 8, output.value)
    && ScriptAt(bytes, at + 8, output.scriptPubkey)
  }

  function InputsLength(inputs: seq<TxInput>, n: nat): nat
    requires n <= |inputs|
  {
    if n == 0 then 0 else InputsLength(inputs, n - 1) + 44 + |inputs[n - 1].scriptSig|
  }

  function OutputsLength(outputs: seq<TxOutput>, n: nat): nat
    requires n <= |outputs|
  {
    if n == 0 then 0 else OutputsLength(outputs, n - 1) + 12 + |outputs[n - 1].scriptPubkey|
  }

  // ---------- Parts of a byte string ----------

  lemma {:induction false} PartNumber(before: Bytes, n: nat, width: nat, after: Bytes)
    requires n < Pow256(width)
    ensures Number(before + ToLe(n, width) + after, |before|, width, n)
  {
    var all := before + ToLe(n, width) + after;
    assert all[|before|..|before| + width] == ToLe(n, width);
    FromToLe(n, width);
  }

  lemma {:induction false} PartDigest(before: Bytes, digest: Digest, after: Bytes)
    ensures DigestAt(before + ToBe(digest, 32) + after, |before|, digest)
  {
    var all := before + ToBe(digest, 32) + after;
    var field := all[|before|..|before| + 32];
    assert field == ToBe(digest, 32);
    hide ToBe, Pow256;
    forall i | 0 <= i < 32
      ensures field[i] == Arithmetic.Quot(digest, Pow256(31 - i)) % 256
    {
      ToBeAt(digest, 32, i);
    }
  }

  lemma PartScript(before: Bytes, script: Bytes, after: Bytes)
    ensures ScriptAt(before + Length32(|script|) + script + after, |before|, script)
  {
    hide ToLe, Pow256, FromLe;
    var all := before + Length32(|script|) + script + after;
    Widths();
    PartNumber(before, |script| % U32_LIMIT, 4, script + after);
    assert before + Length32(|script|) + (script + after) == all;
    assert all[|before| + 4..|before| + 4 + |script|] == script;
  }

  lemma PartInput(before: Bytes, input: TxInput, after: Bytes)
    ensures InputAt(before + SerializeInput(input) + after, |before|, input)
    ensures |SerializeInput(input)| == 44 + |input.scriptSig|
  {
    hide ToLe, ToBe, Pow256, DigestAt, Number, ScriptAt;
    Widths();
    var all, script := before + SerializeInput(input) + after, input.scriptSig;
    var txid, vout := ToBe(input.previousOutput.txid, 32), ToLe(input.previousOutput.vout, 4);
    var length, sequence := Length32(|script|), ToLe(input.sequence, 4);
    assert all == before + txid + (vout + length + script + sequence + after);
    PartDigest(before, input.previousOutput.txid, vout + length + script + sequence + after);
    assert all == (before + txid) + vout + (length + script + sequence + after);
    PartNumber(before + txid, input.previousOutput.vout, 4, length + script + sequence + after);
    assert all == (before + txid + vout) + length + script + (sequence + after);
    PartScript(before + txid + vout, script, sequence + after);
    assert all == (before + txid + vout + length + script) + sequence + after;
    PartNumber(before + txid + vout + length + script, input.sequence, 4, after);
  }

  lemma PartOutput(before: Bytes, output: TxOutput, after: Bytes)
    ensures OutputAt(before + SerializeOutput(output) + after, |before|, output)
    ensures |SerializeOutput(output)| == 12 + |output.scriptPubkey|
  {
    hide ToLe, Pow256, Number, ScriptAt;
    Widths();
    var all, script := before + SerializeOutput(output) + after, output.scriptPubkey;
    var value, length := ToLe(output.value, 8), Length32(|script|);
    assert all == before + value + (length + script + after);
    PartNumber(before, output.value, 8, length + script + after);
    assert all == (before + value) + length + script + after;
    PartScript(before + value, script, after);
  }

  // ---------- Transactions ----------

  lemma {:induction false} InputsParts(inputs: seq<TxInput>, n: nat, k: nat) returns (after: Bytes)
    requires k < n <= |inputs|
    ensures SerializeInputs(inputs, n) == SerializeInputs(inputs, k) + SerializeInput(inputs[k]) + after
    decreases n
  {
    hide SerializeInput;
    after := [];
    if k < n - 1 {
      var less := InputsParts(inputs, n - 1, k);
      after := less + SerializeInput(inputs[n - 1]);
    }
  }

  lemma {:induction false} OutputsParts(outputs: seq<TxOutput>, n: nat, k: nat) returns (after: Bytes)
    requires k < n <= |outputs|
    ensures SerializeOutputs(outputs, n) == SerializeOutputs(outputs, k) + SerializeOutput(outputs[k]) + after
    decreases n
  {
    hide SerializeOutput;
    after := [];
    if k < n - 1 {
      var less := OutputsParts(outputs, n - 1, k);
      after := less + SerializeOutput(outputs[n - 1]);
    }
  }

  lemma {:induction false} InputsSize(inputs: seq<TxInput>, n: nat)
    requires n <= |inputs|
    ensures |SerializeInputs(inputs, n)| == InputsLength(inputs, n)
  {
    hide SerializeInput;
    if n > 0 {
      InputsSize(inputs, n - 1);
      PartInput([], inputs[n - 1], []);
    }
  }

  lemma {:induction false} OutputsSize(outputs: seq<TxOutput>, n: nat)
    requires n <= |outputs|
    ensures |SerializeOutputs(outputs, n)| == OutputsLength(outputs, n)
  {
    hide SerializeOutput;
    if n > 0 {
      OutputsSize(outputs, n - 1);
      PartOutput([], outputs[n - 1], []);
    }
  }

  /** The inputs lie one after the other. */
  lemma {:induction false} InputsLaid(before: Bytes, inputs: seq<TxInput>, after: Bytes, k: nat)
    requires k < |inputs|
    ensures InputAt(before + SerializeInputs(inputs, |inputs|) + after, |before| + InputsLength(inputs, k), inputs[k])
  {
    hide SerializeInput, SerializeInputs, InputAt, InputsLength;
    var rest := InputsParts(inputs, |inputs|, k);
    InputsSize(inputs, k);
    PartInput(before + SerializeInputs(inputs, k), inputs[k], rest + after);
    assert before + SerializeInputs(inputs, |inputs|) + after
        == (before + SerializeInputs(inputs, k)) + SerializeInput(inputs[k]) + (rest + after);
  }

  lemma {:induction false} OutputsLaid(before: Bytes, outputs: seq<TxOutput>, after: Bytes, k: nat)
    requires k < |outputs|
    ensures
      OutputAt(before + SerializeOutputs(outputs, |outputs|) + after, |before| + OutputsLength(outputs, k), outputs[k])
  {
    hide SerializeOutput, SerializeOutputs, OutputAt, OutputsLength;
    var rest := OutputsParts(outputs, |outputs|, k);
    OutputsSize(outputs, k);
    PartOutput(before + SerializeOutputs(outputs, k), outputs[k], rest + after);
    assert before + SerializeOutputs(outputs, |outputs|) + after
        == (before + SerializeOutputs(outputs, k)) + SerializeOutput(outputs[k]) + (rest + after);
  }

  /** A transaction in bytes: version; number of inputs and the inputs; number of outputs and the outputs; lock time.
      This fixes every byte. */
  lemma TransactionLayout(tx: Transaction)
    ensures var b := Serialize(tx);
      var middle := 8 + InputsLength(tx.inputs, |tx.inputs|);
      var end := middle + 4 + OutputsLength(tx.outputs, |tx.outputs|);
      && |b| == end + 8 && EstimatedSize(tx) == |b| % 0x1_0000_0000_0000_0000
      && Number(b, 0, 4, tx.version) && Number(b, 4, 4, |tx.inputs| % 0x1_0000_0000)
      && (forall k :: 0 <= k < |tx.inputs| ==> InputAt(b, 8 + InputsLength(tx.inputs, k), tx.inputs[k]))
      && Number(b, middle, 4, |tx.outputs| % 0x1_0000_0000)
      && (forall k :: 0 <= k < |tx.outputs| ==>
            OutputAt(b, middle + 4 + OutputsLength(tx.outputs, k), tx.outputs[k]))
      && Number(b, end, 8, tx.lockTime)
  {
    hide *;
    FrontLaid(tx);
    MiddleLaid(tx);
    EndLaid(tx);
    forall k | 0 <= k < |tx.inputs|
      ensures InputAt(Serialize(tx), 8 + InputsLength(tx.inputs, k), tx.inputs[k])
    {
      OneInputLaid(tx, k);
    }
    forall k | 0 <= k < |tx.outputs|
      ensures OutputAt(Serialize(tx), 12 + InputsLength(tx.inputs, |tx.inputs|) + OutputsLength(tx.outputs, k),
                       tx.outputs[k])
    {
      OneOutputLaid(tx, k);
    }
  }

  lemma FrontLaid(tx: Transaction)
    ensures Number(Serialize(tx), 0, 4, tx.version)
    ensures Number(Serialize(tx), 4, 4, |tx.inputs| % 0x1_0000_0000)
  {
    var m, n := |tx.inputs|, |tx.outputs|;
    Widths();
    hide ToLe, Pow256, Number, SerializeInputs, SerializeOutputs, InputsLength, OutputsLength;
    var version, count, inputs := ToLe(tx.version, 4), Length32(m), SerializeInputs(tx.inputs, m);
    var number, outputs, lock := Length32(n), SerializeOutputs(tx.outputs, n), ToLe(tx.lockTime, 8);
    SixParts(version, count, inputs, number, outputs, lock);
    PartNumber([], tx.version, 4, count + (inputs + (number + (outputs + lock))));
    PartNumber(version, m % U32_LIMIT, 4, inputs + (number + (outputs + lock)));
  }

  lemma MiddleLaid(tx: Transaction)
    ensures Number(Serialize(tx), 8 + InputsLength(tx.inputs, |tx.inputs|), 4, |tx.outputs| % 0x1_0000_0000)
  {
    var m, n := |tx.inputs|, |tx.outputs|;
    InputsSize(tx.inputs, m);
    Widths();
    hide ToLe, Pow256, Number, SerializeInputs, SerializeOutputs, InputsLength, OutputsLength;
    var version, count, inputs := ToLe(tx.version, 4), Length32(m), SerializeInputs(tx.inputs, m);
    var number, outputs, lock := Length32(n), SerializeOutputs(tx.outputs, n), ToLe(tx.lockTime, 8);
    SixParts(version, count, inputs, number, outputs, lock);
    PartNumber(version + count + inputs, n % U32_LIMIT, 4, outputs + lock);
  }

  lemma EndLaid(tx: Transaction)
    ensures
      var end := 12 + InputsLength(tx.inputs, |tx.inputs|) + OutputsLength(tx.outputs, |tx.outputs|);
      && Number(Serialize(tx), end, 8, tx.lockTime)
      && |Serialize(tx)| == end + 8 && EstimatedSize(tx) == |Serialize(tx)| % 0x1_0000_0000_0000_0000
  {
    var m, n := |tx.inputs|, |tx.outputs|;
    InputsSize(tx.inputs, m);
    OutputsSize(tx.outputs, n);
    Widths();
    hide ToLe, Pow256, Number, SerializeInputs, SerializeOutputs, InputsLength, OutputsLength;
    var version, count, inputs := ToLe(tx.version, 4), Length32(m), SerializeInputs(tx.inputs, m);
    var number, outputs, lock := Length32(n), SerializeOutputs(tx.outputs, n), ToLe(tx.lockTime, 8);
    SixParts(version, count, inputs, number, outputs, lock);
    PartNumber(version + count + inputs + number + outputs, tx.lockTime, 8, []);
  }

  lemma {:induction false} OneInputLaid(tx: Transaction, k: nat)
    requires k < |tx.inputs|
    ensures InputAt(Serialize(tx), 8 + InputsLength(tx.inputs, k), tx.inputs[k])
  {
    var m, n := |tx.inputs|, |tx.outputs|;
    hide ToLe, InputAt, SerializeInputs, SerializeOutputs, InputsLength;
    var version, count, inputs := ToLe(tx.version, 4), Length32(m), SerializeInputs(tx.inputs, m);
    var number, outputs, lock := Length32(n), SerializeOutputs(tx.outputs, n), ToLe(tx.lockTime, 8);
    SixParts(version, count, inputs, number, outputs, lock);
    InputsLaid(version + count, tx.inputs, number + (outputs + lock), k);
  }

  lemma {:induction false} OneOutputLaid(tx: Transaction, k: nat)
    requires k < |tx.outputs|
    ensures OutputAt(Serialize(tx), 12 + InputsLength(tx.inputs, |tx.inputs|) + OutputsLength(tx.outputs, k),
                     tx.outputs[k])
  {
    var m, n := |tx.inputs|, |tx.outputs|;
    hide ToLe, OutputAt, SerializeInputs, SerializeOutputs, InputsLength, OutputsLength;
    var version, count, inputs := ToLe(tx.version, 4), Length32(m), SerializeInputs(tx.inputs, m);
    var number, outputs, lock := Length32(n), SerializeOutputs(tx.outputs, n), ToLe(tx.lockTime, 8);
    InputsSize(tx.inputs, m);
    SixParts(version, count, inputs, number, outputs, lock);
    OutputsLaid(version + count + inputs + number, tx.outputs, lock, k);
  }

  lemma SixParts(a: Bytes, b: Bytes, c: Bytes, d: Bytes, e: Bytes, f: Bytes)
    ensures var all := a + (b + (c + (d + (e + f))));
      && all == [] + a + (b + (c + (d + (e + f))))
      && all == a + b + (c + (d + (e + f)))
      && all == (a + b) + c + (d + (e + f))
      && all == (a + b + c) + d + (e + f)
      && all == (a + b + c + d) + e + f
      && all == (a + b + c + d + e) + f + []
  {
    Regroup(a, b, c + (d + (e + f)));
    Regroup(a + b, c, d + (e + f));
    Regroup(a + b + c, d, e + f);
    Regroup(a + b + c + d, e, f);
  }

  /** A header is 92 bytes long. */
  lemma HeaderLayout(header: BlockHeader)
    ensures var b := SerializeHeader(header);
      && |b| == 92 && DigestAt(b, 0, header.previousBlockHash) && DigestAt(b, 32, header.merkleRoot)
      && Number(b, 64, 8, header.timestamp) && Number(b, 72, 4, header.bits) && Number(b, 76, 8, header.nonce)
      && Number(b, 84, 8, header.height)
  {
    hide ToLe, ToBe, Pow256, Number, DigestAt;
    Widths();
    var b, previous, root := SerializeHeader(header), ToBe(header.previousBlockHash, 32), ToBe(header.merkleRoot, 32);
    var time, bits := ToLe(header.timestamp, 8), ToLe(header.bits, 4);
    var nonce, height := ToLe(header.nonce, 8), ToLe(header.height, 8);
    SixParts(previous, root, time, bits, nonce, height);
    PartDigest([], header.previousBlockHash, root + (time + (bits + (nonce + height))));
    PartDigest(previous, header.merkleRoot, time + (bits + (nonce + height)));
    PartNumber(previous + root, header.timestamp, 8, bits + (nonce + height));
    PartNumber(previous + root + time, header.bits, 4, nonce + height);
    PartNumber(previous + root + time + bits, header.nonce, 8, height);
    PartNumber(previous + root + time + bits + nonce, header.height, 8, []);
  }
}
